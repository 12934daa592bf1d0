/** The key/value database and what is stored in it: one text per user, one per
    conversation, and one index text per user. */
module Tables {
  import opened StringUtil
  import opened Records

  type Data = map<string, string>

  /** A conversation in memory: `Conversacion`, with `id` what its `getId` answers. */
  datatype Conversation = Conversation(id: string, users: seq<User>, messages: seq<Message>)

  const NOT_FOUND := "NotFound"
  const NO_CONVERSATION_ID := "ConversacionInvalida"

  function UserKey(id: string): (k: string) { "usuario_" + id }
  function TalkKey(id: string): (k: string) { "conversacion_" + id }
  function IndexKey(id: string): (k: string) { "conversaciones_por_usuario_" + id }

  function PairId(a: string, b: string): (id: string) { a + "-" + b }

  /** `getDato`: a missing key reads as the sentinel. */
  function Get(db: Data, key: string): (v: string) {
    if key in db then db[key] else NOT_FOUND
  }

  function LoadUser(p: Platform, db: Data, id: string): (u: Attempt<User>) {
    var v := Get(db, UserKey(id));
    if v == NOT_FOUND then Done(NoUser) else ReadUser(p, v)
  }

  function LoadUsers(p: Platform, db: Data, ids: seq<string>): (us: Attempt<seq<User>>)
    ensures us.Done? <==> forall i :: 0 <= i < |ids| ==> LoadUser(p, db, ids[i]).Done?
    ensures us.Done? ==>
              |us.value| == |ids| && forall i :: 0 <= i < |ids| ==> LoadUser(p, db, ids[i]) == Done(us.value[i])
  {
    var us := seq(|ids|, i requires 0 <= i < |ids| => LoadUser(p, db, ids[i]));
    assert forall i :: 0 <= i < |ids| ==> us[i] == LoadUser(p, db, ids[i]);
    Collect(us)
  }

  function SaveUser(p: Platform, db: Data, u: User): (db': Data) {
    db[UserKey(u.id) := WriteUser(p, u)]
  }

  function UserIds(us: seq<User>): (ids: seq<string>)
    ensures |ids| == |us|
  {
    seq(|us|, i requires 0 <= i < |us| => us[i].id)
  }

  function WriteMessages(p: Platform, ms: seq<Message>): (ss: seq<string>)
    ensures |ss| == |ms|
  {
    seq(|ms|, i requires 0 <= i < |ms| => WriteMessage(p, ms[i]))
  }

  function ReadMessages(p: Platform, ss: seq<string>): (ms: Attempt<seq<Message>>)
    ensures ms.Done? <==> forall i :: 0 <= i < |ss| ==> ReadMessage(p, ss[i]).Done?
    ensures ms.Done? ==> |ms.value| == |ss| && forall i :: 0 <= i < |ss| ==> ReadMessage(p, ss[i]) == Done(ms.value[i])
  {
    var ms := seq(|ss|, i requires 0 <= i < |ss| => ReadMessage(p, ss[i]));
    assert forall i :: 0 <= i < |ss| ==> ms[i] == ReadMessage(p, ss[i]);
    Collect(ms)
  }

  function TalkJson(p: Platform, id: string, userIds: seq<string>, ms: seq<Message>): (o: Json) {
    map["Id" := Text(id),
        "IdsUsuarios" := Text(Join(userIds, SEPARATOR)),
        "Mensajes" := Text(Join(WriteMessages(p, ms), SEPARATOR))]
  }

  /** The stored text of a conversation, from its id, user ids and messages. */
  function TalkText(p: Platform, id: string, userIds: seq<string>, ms: seq<Message>): (s: string) {
    p.write(TalkJson(p, id, userIds, ms))
  }

  /** `Conversacion::getId`: the stored id, or one made from the user ids. */
  function NameOf(id: string, users: seq<User>): (name: string) {
    if id != "" then id else Join(UserIds(users), '-')
  }

  /** `Conversacion::deserealizar`; the users are loaded from the database. */
  function ReadTalk(p: Platform, db: Data, s: string): (c: Attempt<Conversation>) {
    match p.read(s)
    case Failed => Done(Conversation("", [], []))
    case Other => Raised
    case Object(o) =>
      var id :- GetText(o, "Id");
      var ids :- GetText(o, "IdsUsuarios");
      var users :- LoadUsers(p, db, Split(ids, SEPARATOR));
      var texts :- GetText(o, "Mensajes");
      var messages :- ReadMessages(p, Split(texts, SEPARATOR));
      Done(Conversation(NameOf(id, users), users, messages))
  }

  function LoadTalk(p: Platform, db: Data, id: string): (c: Attempt<Conversation>) {
    var v := Get(db, TalkKey(id));
    if v == NOT_FOUND then Done(Conversation(NO_CONVERSATION_ID, [], [])) else ReadTalk(p, db, v)
  }

  /** The messages of a conversation. */
  function LoadMessages(p: Platform, db: Data, id: string): (ms: Attempt<seq<Message>>) {
    var c :- LoadTalk(p, db, id);
    Done(c.messages)
  }

  /** The user ids in the stored text of a conversation. */
  function StoredIds(p: Platform, db: Data, id: string): (ids: seq<string>) {
    match p.read(Get(db, TalkKey(id)))
    case Object(o) =>
      var ids := GetText(o, "IdsUsuarios");
      if ids.Done? then Split(ids.value, SEPARATOR) else []
    case _ => []
  }

  /** One turn of the index loop of `setConversacion`. */
  function AddToIndex(db: Data, userId: string, talkId: string): (db': Data) {
    var v := Get(db, IndexKey(userId));
    db[IndexKey(userId) :=
         if talkId in Split(v, SEPARATOR) then v else v + [SEPARATOR] + talkId]
  }

  function AddToIndexes(db: Data, userIds: seq<string>, talkId: string): (db': Data) {
    if userIds == [] then db
    else
      var n := |userIds| - 1;
      AddToIndex(AddToIndexes(db, userIds[..n], talkId), userIds[n], talkId)
  }

  function SaveTalk(p: Platform, db: Data, c: Conversation): (db': Data) {
    AddToIndexes(db[TalkKey(c.id) := TalkText(p, c.id, UserIds(c.users), c.messages)],
                 UserIds(c.users), c.id)
  }

  /** The body shared by `almacenarConversacion` and `almacenarListaDifusion`. */
  function Deliver(p: Platform, db: Data, sender: User, receiver: User, m: Message): (db': Attempt<Data>) {
    var c :- LoadTalk(p, db, PairId(sender.id, receiver.id));
    if c.id != NO_CONVERSATION_ID then
      Done(SaveTalk(p, db, c.(messages := c.messages + [m])))
    else
      var c :- LoadTalk(p, db, PairId(receiver.id, sender.id));
      if c.id != NO_CONVERSATION_ID then
        Done(SaveTalk(p, db, c.(messages := c.messages + [m])))
      else
        Done(SaveTalk(p, db, Conversation(NameOf("", [sender, receiver]), [sender, receiver], [m])))
  }

  /** The stored text of a conversation can be read, and its lists are as joined. */
  lemma TalkTextParses(p: Platform, id: string, userIds: seq<string>, ms: seq<Message>)
    requires p.Lawful()
    ensures var s := TalkText(p, id, userIds, ms);
            && s != NOT_FOUND && p.read(s).Object?
            && var o := p.read(s).members;
               && GetText(o, "Id") == Done(id)
               && GetText(o, "IdsUsuarios") == Done(Join(userIds, SEPARATOR))
               && GetText(o, "Mensajes") == Done(Join(WriteMessages(p, ms), SEPARATOR))
  {
    hide Join, WriteMessages, IsDigest, Mentions;
    var o := TalkJson(p, id, userIds, ms);
    assert Flat(o);
    assert p.read(p.write(o)) == Object(o) && WellWritten(p.write(o));
    assert NOT_FOUND[0] == 'N';
  }

  /** Reading a conversation text gives its id and both its lists as split, or raises the
      exception that a piece of the second list raises. */
  lemma ReadTalkText(p: Platform, db: Data, id: string, userIds: seq<string>, ms: seq<Message>)
    requires p.Lawful() && id != ""
    ensures var s := TalkText(p, id, userIds, ms);
            var us := LoadUsers(p, db, Split(Join(userIds, SEPARATOR), SEPARATOR));
            var read := ReadMessages(p, Split(Join(WriteMessages(p, ms), SEPARATOR), SEPARATOR));
            && s != NOT_FOUND
            && ReadTalk(p, db, s) ==
               if us.Done? && read.Done? then Done(Conversation(id, us.value, read.value)) else Raised
  {
    hide Split, Join, LoadUsers, ReadMessages, WriteMessages, TalkText;
    TalkTextParses(p, id, userIds, ms);
  }

  // ---------------------------------------------------------------------
  // The three families of keys.

  /** Keys of different families differ and each family is injective. */
  lemma KeysApart(x: string, y: string)
    ensures UserKey(x) != TalkKey(y) && UserKey(x) != IndexKey(y) && TalkKey(x) != IndexKey(y)
    ensures UserKey(x) == UserKey(y) ==> x == y
    ensures TalkKey(x) == TalkKey(y) ==> x == y
    ensures IndexKey(x) == IndexKey(y) ==> x == y
  {
    assert UserKey(x)[0] == 'u' && TalkKey(y)[0] == 'c' && IndexKey(y)[0] == 'c';
    assert TalkKey(x)[12] == '_' && IndexKey(y)[12] == 'e';
    assert UserKey(x)[8..] == x && UserKey(y)[8..] == y;
    assert TalkKey(x)[13..] == x && TalkKey(y)[13..] == y;
    assert IndexKey(x)[27..] == x && IndexKey(y)[27..] == y;
  }

  /** The id made for a new conversation is the pair of the user ids. */
  lemma NewTalkId(x: User, y: User)
    requires x.id != ""
    ensures NameOf("", [x, y]) == PairId(x.id, y.id)
  {
    var ids := UserIds([x, y]);
    assert ids[..1] == [x.id] && ids[..1][..0] == [] && ids[1] == y.id;
    assert Join(ids[..1], '-') == "" + x.id == x.id;
    assert x.id + ['-'] + y.id == PairId(x.id, y.id);
  }

  lemma PairIdInjective(a: string, b: string, c: string, d: string)
    requires |a| == |c|
    ensures PairId(a, b) == PairId(c, d) ==> a == c && b == d
  {
    assert PairId(a, b)[..|a|] == a && PairId(a, b)[|a| + 1..] == b;
    assert PairId(c, d)[..|a|] == c && PairId(c, d)[|a| + 1..] == d;
  }

  lemma {:induction false} IndexesFrame(db: Data, userIds: seq<string>, talkId: string, k: string)
    requires forall u :: u in userIds ==> k != IndexKey(u)
    ensures Get(AddToIndexes(db, userIds, talkId), k) == Get(db, k)
  {
    if userIds != [] {
      var n := |userIds| - 1;
      IndexesFrame(db, userIds[..n], talkId, k);
      assert userIds[n] in userIds;
    }
  }

  /** Index updates touch no user, no conversation and no other index. */
  lemma IndexesApart(db: Data, userIds: seq<string>, talkId: string, x: string)
    ensures Get(AddToIndexes(db, userIds, talkId), UserKey(x)) == Get(db, UserKey(x))
    ensures Get(AddToIndexes(db, userIds, talkId), TalkKey(x)) == Get(db, TalkKey(x))
    ensures x !in userIds ==>
              Get(AddToIndexes(db, userIds, talkId), IndexKey(x)) == Get(db, IndexKey(x))
  {
    forall u | u in userIds
      ensures UserKey(x) != IndexKey(u) && TalkKey(x) != IndexKey(u)
      ensures IndexKey(x) == IndexKey(u) ==> x == u
    {
      KeysApart(x, u);
    }
    IndexesFrame(db, userIds, talkId, UserKey(x));
    IndexesFrame(db, userIds, talkId, TalkKey(x));
    if x !in userIds { IndexesFrame(db, userIds, talkId, IndexKey(x)); }
  }

  /** A saved conversation leaves every user and every other conversation alone. */
  lemma SaveTalkFrame(p: Platform, db: Data, c: Conversation, x: string)
    ensures Get(SaveTalk(p, db, c), UserKey(x)) == Get(db, UserKey(x))
    ensures Get(SaveTalk(p, db, c), TalkKey(x)) ==
            if x == c.id then TalkText(p, c.id, UserIds(c.users), c.messages) else Get(db, TalkKey(x))
    ensures x !in UserIds(c.users) ==> Get(SaveTalk(p, db, c), IndexKey(x)) == Get(db, IndexKey(x))
  {
    IndexesApart(db[TalkKey(c.id) := TalkText(p, c.id, UserIds(c.users), c.messages)],
                 UserIds(c.users), c.id, x);
    KeysApart(x, c.id);
    KeysApart(c.id, x);
  }

  /** Delivering a message leaves every user record alone. */
  lemma DeliverKeepsUsers(p: Platform, db: Data, sender: User, receiver: User, m: Message, x: string)
    ensures var after := Deliver(p, db, sender, receiver, m);
            after.Done? ==> LoadUser(p, after.value, x) == LoadUser(p, db, x)
  {
    hide LoadTalk, SaveTalk, ReadUser;
    var c, d := LoadTalk(p, db, PairId(sender.id, receiver.id)), LoadTalk(p, db, PairId(receiver.id, sender.id));
    if c.Done? {
      SaveTalkFrame(p, db, c.value.(messages := c.value.messages + [m]), x);
      if d.Done? { SaveTalkFrame(p, db, d.value.(messages := d.value.messages + [m]), x); }
    }
    SaveTalkFrame(p, db, Conversation(NameOf("", [sender, receiver]), [sender, receiver], [m]), x);
  }
}
