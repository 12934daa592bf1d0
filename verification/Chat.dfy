/** The store as its users see it: registered users and a list of dialogues in
    order of creation.  Every database reached by requests is the text form of
    such a chat, and every request does to the text what it does to the chat. */
module Chat {
  import opened StringUtil
  import opened Records
  import opened Tables
  import opened Requests

  datatype Dialogue = Dialogue(a: string, b: string, log: seq<Message>) {
    function Id(): (id: string) { PairId(a, b) }
    predicate Has(u: string) { u == a || u == b }
    predicate Joins(x: string, y: string) { (a == x && b == y) || (a == y && b == x) }
  }

  datatype Chat = Chat(users: map<string, User>, dialogues: seq<Dialogue>)

  /** What a stored log reads back as, if no piece of it raises an exception. */
  function Reread(p: Platform, log: seq<Message>): (ms: Attempt<seq<Message>>) {
    ReadMessages(p, Split(Join(WriteMessages(p, log), SEPARATOR), SEPARATOR))
  }

  /** Position of the dialogue between `x` and `y`, in either order. */
  function FindPair(ds: seq<Dialogue>, x: string, y: string): (k: nat)
    ensures k <= |ds|
    ensures forall i :: 0 <= i < k ==> !ds[i].Joins(x, y)
    ensures k < |ds| ==> ds[k].Joins(x, y)
  {
    if ds == [] || ds[0].Joins(x, y) then 0 else 1 + FindPair(ds[1..], x, y)
  }

  /** Position of the dialogue stored under an id. */
  function FindId(ds: seq<Dialogue>, id: string): (k: nat)
    ensures k <= |ds|
    ensures forall i :: 0 <= i < k ==> ds[i].Id() != id
    ensures k < |ds| ==> ds[k].Id() == id
  {
    if ds == [] || ds[0].Id() == id then 0 else 1 + FindId(ds[1..], id)
  }

  /** Say `m` from `x` to `y`: extend their dialogue, which raises an exception if it cannot be
      read back, or open one. */
  function Say(p: Platform, c: Chat, x: string, y: string, m: Message): (c': Attempt<Chat>) {
    var k := FindPair(c.dialogues, x, y);
    if k == |c.dialogues| then Done(c.(dialogues := c.dialogues + [Dialogue(x, y, [m])]))
    else
      var d := c.dialogues[k];
      var log :- Reread(p, d.log);
      Done(c.(dialogues := c.dialogues[k := d.(log := log + [m])]))
  }

  // ---------------------------------------------------------------------
  // The invariant of the chat.

  ghost predicate ValidUsers(users: map<string, User>) {
    forall id :: id in users ==> IsDigest(id) && users[id].id == id
  }

  /** At most one dialogue joins any two users. */
  ghost predicate OnePerPair(ds: seq<Dialogue>) {
    forall i, j :: 0 <= i < j < |ds| ==> !ds[i].Joins(ds[j].a, ds[j].b)
  }

  ghost predicate Valid(c: Chat) {
    && ValidUsers(c.users)
    && (forall i :: 0 <= i < |c.dialogues| ==>
          c.dialogues[i].a in c.users && c.dialogues[i].b in c.users && c.dialogues[i].log != [])
    && OnePerPair(c.dialogues)
  }

  // ---------------------------------------------------------------------
  // The text form.

  /** The ids of the dialogues of a user, in order of creation. */
  function IdsOf(ds: seq<Dialogue>, u: string): (ids: seq<string>) {
    if ds == [] then []
    else
      var n := |ds| - 1;
      IdsOf(ds[..n], u) + if ds[n].Has(u) then [ds[n].Id()] else []
  }

  function IndexText(ds: seq<Dialogue>, u: string): (s: string) {
    if ds == [] then NOT_FOUND
    else
      var n := |ds| - 1;
      IndexText(ds[..n], u) + if ds[n].Has(u) then [SEPARATOR] + ds[n].Id() else ""
  }

  function DialogueText(p: Platform, d: Dialogue): (s: string) {
    TalkText(p, d.Id(), [d.a, d.b], d.log)
  }

  ghost predicate UsersStored(p: Platform, db: Data, users: map<string, User>) {
    forall x :: Get(db, UserKey(x)) == if x in users then WriteUser(p, users[x]) else NOT_FOUND
  }

  ghost predicate TalksStored(p: Platform, db: Data, ds: seq<Dialogue>) {
    && (forall i :: 0 <= i < |ds| ==> Get(db, TalkKey(ds[i].Id())) == DialogueText(p, ds[i]))
    && (forall x :: Get(db, TalkKey(x)) != NOT_FOUND ==> exists i :: 0 <= i < |ds| && ds[i].Id() == x)
  }

  ghost predicate IndexStored(db: Data, ds: seq<Dialogue>) {
    forall u :: Get(db, IndexKey(u)) == IndexText(ds, u)
  }

  /** The database holds exactly the text form of the chat. */
  ghost predicate Stores(p: Platform, db: Data, c: Chat) {
    && UsersStored(p, db, c.users)
    && TalksStored(p, db, c.dialogues)
    && IndexStored(db, c.dialogues)
  }

  // ---------------------------------------------------------------------
  // Reading.

  /** A user is found exactly when registered, and reads back whole. */
  lemma LoadUserOf(p: Platform, db: Data, c: Chat, x: string)
    requires p.Lawful() && ValidUsers(c.users) && UsersStored(p, db, c.users)
    ensures LoadUser(p, db, x) == Done(if x in c.users then c.users[x] else NoUser)
    ensures Found(LoadUser(p, db, x).value) <==> x in c.users
  {
    hide ReadUser, WriteUser;
    if x in c.users {
      var u := c.users[x];
      UserRoundTrip(p, u);
      DigestIsPlain(x);
      WrittenUser(p, u);
    }
  }

  lemma WrittenUser(p: Platform, u: User)
    requires p.Lawful()
    ensures WriteUser(p, u) != NOT_FOUND
  {
    hide UserJson, Flat, IsDigest, Mentions;
    UserIsFlat(u);
    assert WellWritten(p.write(UserJson(u)));
    assert NOT_FOUND[0] == 'N';
  }

  lemma PairIdIsNoSentinel(a: string, b: string)
    requires IsDigest(a) && IsDigest(b)
    ensures |PairId(a, b)| == 65 && SEPARATOR !in PairId(a, b)
    ensures PairId(a, b) != NO_CONVERSATION_ID && PairId(a, b) != NOT_FOUND && PairId(a, b) != NO_USER_ID
    ensures PairId(a, b) != ""
  {
    DigestIsPlain(a);
    DigestIsPlain(b);
    assert |NO_CONVERSATION_ID| == 20 && |NOT_FOUND| == 8 && |NO_USER_ID| == 14;
  }

  /** Dialogues of a valid chat are told apart by their ids. */
  lemma IdsApart(c: Chat, i: nat, j: nat)
    requires Valid(c) && i < |c.dialogues| && j < |c.dialogues|
    ensures c.dialogues[i].Id() == c.dialogues[j].Id() ==> i == j
  {
    var d, e := c.dialogues[i], c.dialogues[j];
    PairIdInjective(d.a, d.b, e.a, e.b);
  }

  lemma IdsListable(a: string, b: string)
    requires IsDigest(a) && IsDigest(b)
    ensures Split(Join([a, b], SEPARATOR), SEPARATOR) == [a, b]
  {
    DigestIsPlain(a);
    DigestIsPlain(b);
    SplitInvertsJoin([a, b], SEPARATOR);
  }

  /** The conversation that persists a dialogue between registered users. */
  function TalkOf(c: Chat, d: Dialogue): (t: Conversation)
    requires d.a in c.users && d.b in c.users
  {
    Conversation(d.Id(), [c.users[d.a], c.users[d.b]], d.log)
  }

  /** The conversation a dialogue reads as. */
  function Reloaded(p: Platform, c: Chat, d: Dialogue): (t: Attempt<Conversation>)
    requires d.a in c.users && d.b in c.users
  {
    var log :- Reread(p, d.log);
    Done(TalkOf(c, d.(log := log)))
  }

  /** A stored dialogue reads back with its two users and its log reread. */
  lemma LoadTalkOf(p: Platform, db: Data, c: Chat, k: nat)
    requires p.Lawful() && Valid(c) && Stores(p, db, c) && k < |c.dialogues|
    ensures LoadTalk(p, db, c.dialogues[k].Id()) == Reloaded(p, c, c.dialogues[k])
    ensures c.dialogues[k].Id() != NO_CONVERSATION_ID
    ensures StoredIds(p, db, c.dialogues[k].Id()) == [c.dialogues[k].a, c.dialogues[k].b]
  {
    hide TalkText, ReadTalk, LoadUser, Split, Join, WriteMessages, ReadMessages, LoadUsers;
    var d := c.dialogues[k];
    assert Get(db, TalkKey(d.Id())) == DialogueText(p, d);
    PairIdIsNoSentinel(d.a, d.b);
    ReadTalkText(p, db, d.Id(), [d.a, d.b], d.log);
    TalkTextParses(p, d.Id(), [d.a, d.b], d.log);
    IdsListable(d.a, d.b);
    LoadBoth(p, db, c, d);
  }

  lemma LoadBoth(p: Platform, db: Data, c: Chat, d: Dialogue)
    requires p.Lawful() && ValidUsers(c.users) && UsersStored(p, db, c.users) && d.a in c.users && d.b in c.users
    ensures LoadUsers(p, db, [d.a, d.b]) == Done([c.users[d.a], c.users[d.b]])
  {
    hide LoadUser, UsersStored, ValidUsers;
    LoadUserOf(p, db, c, d.a);
    LoadUserOf(p, db, c, d.b);
    var ids, us := [d.a, d.b], LoadUsers(p, db, [d.a, d.b]);
    assert us.Done?;
    assert LoadUser(p, db, ids[0]) == Done(us.value[0]) && LoadUser(p, db, ids[1]) == Done(us.value[1]);
    assert us.value == [c.users[d.a], c.users[d.b]];
  }

  lemma LoadTalkNone(p: Platform, db: Data, c: Chat, id: string)
    requires Stores(p, db, c) && FindId(c.dialogues, id) == |c.dialogues|
    ensures LoadTalk(p, db, id) == Done(Conversation(NO_CONVERSATION_ID, [], []))
  {
    assert forall i :: 0 <= i < |c.dialogues| ==> c.dialogues[i].Id() != id;
  }

  // ---------------------------------------------------------------------
  // The index.

  lemma SplitNotFound()
    ensures Split(NOT_FOUND, SEPARATOR) == [NOT_FOUND]
  {
    FindUnique(NOT_FOUND, SEPARATOR, 8);
  }

  lemma {:induction false} IndexSplits(ds: seq<Dialogue>, u: string)
    requires forall i :: 0 <= i < |ds| ==> IsDigest(ds[i].a) && IsDigest(ds[i].b)
    ensures Split(IndexText(ds, u), SEPARATOR) == [NOT_FOUND] + IdsOf(ds, u)
    ensures IndexText(ds, u) != "" && IndexText(ds, u)[|IndexText(ds, u)| - 1] != SEPARATOR
  {
    hide Split, PairId;
    if ds == [] {
      SplitNotFound();
    } else {
      var n := |ds| - 1;
      IndexSplits(ds[..n], u);
      var t := IndexText(ds[..n], u);
      if ds[n].Has(u) {
        var id := ds[n].Id();
        PairIdIsNoSentinel(ds[n].a, ds[n].b);
        SplitAppend(t, id, SEPARATOR);
        assert IndexText(ds, u) == t + [SEPARATOR] + id;
        assert id[|id| - 1] in id;
        assert [NOT_FOUND] + IdsOf(ds[..n], u) + [id] == [NOT_FOUND] + IdsOf(ds, u);
      } else {
        assert IndexText(ds, u) == t + "" == t;
        assert IdsOf(ds, u) == IdsOf(ds[..n], u) + [] == IdsOf(ds[..n], u);
      }
    }
  }

  lemma {:induction false} IdsOfMembers(ds: seq<Dialogue>, u: string, id: string)
    ensures id in IdsOf(ds, u) <==> exists i :: 0 <= i < |ds| && ds[i].Has(u) && ds[i].Id() == id
  {
    if ds != [] {
      var n := |ds| - 1;
      IdsOfMembers(ds[..n], u, id);
      if i :| 0 <= i < |ds[..n]| && ds[..n][i].Has(u) && ds[..n][i].Id() == id {
        assert ds[i].Has(u) && ds[i].Id() == id;
      }
      if i :| 0 <= i < |ds| && ds[i].Has(u) && ds[i].Id() == id && i < n {
        assert ds[..n][i].Has(u) && ds[..n][i].Id() == id;
      }
    }
  }

  /** Only who is in each dialogue matters for the index. */
  lemma {:induction false} IndexIgnoresLogs(ds: seq<Dialogue>, es: seq<Dialogue>, u: string)
    requires |ds| == |es|
    requires forall i :: 0 <= i < |ds| ==> ds[i].a == es[i].a && ds[i].b == es[i].b
    ensures IndexText(ds, u) == IndexText(es, u)
  {
    if ds != [] { IndexIgnoresLogs(ds[..|ds| - 1], es[..|ds| - 1], u); }
  }

  ghost predicate IndexLike(v: string) {
    v != "" && v[|v| - 1] != SEPARATOR
  }

  /** Both turns of the index loop: each user gets the id unless it is there,
      and a user who is both participants gets it once. */
  lemma AddToBoth(db: Data, x: string, y: string, id: string, u: string)
    requires id != "" && SEPARATOR !in id
    requires IndexLike(Get(db, IndexKey(u)))
    ensures var v := Get(db, IndexKey(u));
            Get(AddToIndexes(db, [x, y], id), IndexKey(u)) ==
            if (u == x || u == y) && id !in Split(v, SEPARATOR) then v + [SEPARATOR] + id else v
  {
    hide Split;
    var v := Get(db, IndexKey(u));
    assert [x, y][..1] == [x] && [x][..0] == [];
    assert AddToIndexes(db, [x], id) == AddToIndex(db, x, id);
    assert AddToIndexes(db, [x, y], id) == AddToIndex(AddToIndex(db, x, id), y, id);
    KeysApart(u, x);
    KeysApart(u, y);
    SplitAppend(v, id, SEPARATOR);
  }

  /** What each key reads as after a dialogue has been saved. */
  lemma SavedAt(p: Platform, db: Data, c: Chat, d: Dialogue, u: string)
    requires Valid(c) && IndexStored(db, c.dialogues) && d.a in c.users && d.b in c.users
    ensures var db' := SaveTalk(p, db, TalkOf(c, d));
            && Get(db', UserKey(u)) == Get(db, UserKey(u))
            && Get(db', TalkKey(u)) == (if u == d.Id() then DialogueText(p, d) else Get(db, TalkKey(u)))
            && Get(db', IndexKey(u)) ==
               var v := IndexText(c.dialogues, u);
               if d.Has(u) && d.Id() !in IdsOf(c.dialogues, u) then v + [SEPARATOR] + d.Id() else v
  {
    hide AddToIndexes, Split, TalkText, WriteUser, IndexText, IdsOf, OnePerPair, PairId;
    var t := TalkOf(c, d);
    assert UserIds(t.users) == [d.a, d.b];
    SaveTalkFrame(p, db, t, u);
    KeysApart(d.Id(), u);
    var db1 := db[TalkKey(d.Id()) := DialogueText(p, d)];
    assert Get(db1, IndexKey(u)) == Get(db, IndexKey(u)) == IndexText(c.dialogues, u);
    IndexSplits(c.dialogues, u);
    PairIdIsNoSentinel(d.a, d.b);
    AddToBoth(db1, d.a, d.b, d.Id(), u);
  }

  /** The conversation texts after dialogue `d` has been written at position `k`. */
  lemma TalksAfter(p: Platform, db: Data, db': Data, ds: seq<Dialogue>, es: seq<Dialogue>, k: nat, d: Dialogue)
    requires TalksStored(p, db, ds) && |ds| <= |es| && k < |es| && es[k] == d
    requires forall u :: Get(db', TalkKey(u)) == if u == d.Id() then DialogueText(p, d) else Get(db, TalkKey(u))
    requires forall i :: 0 <= i < |es| && i != k ==> i < |ds| && es[i] == ds[i] && ds[i].Id() != d.Id()
    requires k < |ds| ==> ds[k].Id() == d.Id()
    ensures TalksStored(p, db', es)
  {
    hide DialogueText, PairId;
    forall x | Get(db', TalkKey(x)) != NOT_FOUND ensures exists i :: 0 <= i < |es| && es[i].Id() == x {
      if x == d.Id() {
        assert es[k].Id() == x;
      } else {
        var i :| 0 <= i < |ds| && ds[i].Id() == x;
        assert es[i].Id() == x;
      }
    }
  }

  /** Saving dialogue `k` again with another log changes that log and nothing else. */
  lemma SaveAgain(p: Platform, db: Data, c: Chat, k: nat, d: Dialogue)
    requires Valid(c) && Stores(p, db, c) && k < |c.dialogues|
    requires d.a == c.dialogues[k].a && d.b == c.dialogues[k].b
    ensures Stores(p, SaveTalk(p, db, TalkOf(c, d)), c.(dialogues := c.dialogues[k := d]))
  {
    hide TalksStored, IndexText, IdsOf, PairId, SaveTalk, TalkOf, DialogueText, OnePerPair;
    var ds, es := c.dialogues, c.dialogues[k := d];
    var db' := SaveTalk(p, db, TalkOf(c, d));
    forall u
      ensures Get(db', UserKey(u)) == Get(db, UserKey(u))
      ensures Get(db', TalkKey(u)) == if u == d.Id() then DialogueText(p, d) else Get(db, TalkKey(u))
      ensures Get(db', IndexKey(u)) == IndexText(es, u)
    {
      SavedAt(p, db, c, d, u);
      IndexIgnoresLogs(ds, es, u);
      IdsOfMembers(ds, u, d.Id());
      assert ds[k].Has(u) <==> d.Has(u);
    }
    forall i | 0 <= i < |es| && i != k ensures ds[i].Id() != d.Id() {
      IdsApart(c, i, k);
    }
    TalksAfter(p, db, db', ds, es, k, d);
  }

  lemma IndexGrows(ds: seq<Dialogue>, d: Dialogue, u: string)
    ensures IndexText(ds + [d], u) ==
            if d.Has(u) then IndexText(ds, u) + [SEPARATOR] + d.Id() else IndexText(ds, u)
  {
    hide PairId;
    assert (ds + [d])[..|ds|] == ds;
  }

  lemma NewIdIsNew(c: Chat, d: Dialogue)
    requires Valid(c) && d.a in c.users && d.b in c.users
    requires FindPair(c.dialogues, d.a, d.b) == |c.dialogues|
    ensures forall i :: 0 <= i < |c.dialogues| ==> c.dialogues[i].Id() != d.Id()
  {
    hide PairId;
    var ds := c.dialogues;
    forall i | 0 <= i < |ds| ensures ds[i].Id() != d.Id() {
      assert !ds[i].Joins(d.a, d.b);
      PairIdInjective(ds[i].a, ds[i].b, d.a, d.b);
    }
  }

  /** Saving the first conversation of two users adds one dialogue at the end. */
  lemma SaveFirst(p: Platform, db: Data, c: Chat, d: Dialogue)
    requires Valid(c) && Stores(p, db, c)
    requires d.a in c.users && d.b in c.users && FindPair(c.dialogues, d.a, d.b) == |c.dialogues|
    ensures Stores(p, SaveTalk(p, db, TalkOf(c, d)), c.(dialogues := c.dialogues + [d]))
  {
    hide TalksStored, IndexText, FindPair, IdsOf, PairId, SaveTalk, TalkOf, DialogueText, Valid;
    var ds, es := c.dialogues, c.dialogues + [d];
    var db' := SaveTalk(p, db, TalkOf(c, d));
    NewIdIsNew(c, d);
    forall u
      ensures Get(db', UserKey(u)) == Get(db, UserKey(u))
      ensures Get(db', TalkKey(u)) == if u == d.Id() then DialogueText(p, d) else Get(db, TalkKey(u))
      ensures Get(db', IndexKey(u)) == IndexText(es, u)
    {
      SavedAt(p, db, c, d, u);
      IdsOfMembers(ds, u, d.Id());
      IndexGrows(ds, d, u);
    }
    TalksAfter(p, db, db', ds, es, |ds|, d);
  }

  lemma FindPairSymmetric(ds: seq<Dialogue>, x: string, y: string)
    ensures FindPair(ds, x, y) == FindPair(ds, y, x)
  {
    var i, j := FindPair(ds, x, y), FindPair(ds, y, x);
    assert i < |ds| ==> ds[i].Joins(y, x);
    assert j < |ds| ==> ds[j].Joins(x, y);
  }

  /** Looking up one order of a pair finds the dialogue opened in that order. */
  lemma LookupOne(p: Platform, db: Data, c: Chat, x: string, y: string)
    requires p.Lawful() && Valid(c) && Stores(p, db, c) && x in c.users && y in c.users
    ensures var t := LoadTalk(p, db, PairId(x, y));
            var k := FindPair(c.dialogues, x, y);
            if k < |c.dialogues| && c.dialogues[k].a == x && c.dialogues[k].b == y
            then t == Reloaded(p, c, c.dialogues[k]) && (t.Done? ==> t.value.id != NO_CONVERSATION_ID)
            else t == Done(Conversation(NO_CONVERSATION_ID, [], []))
  {
    hide LoadTalk, Reread, PairId, Stores, StoredIds;
    var ds := c.dialogues;
    var k := FindPair(ds, x, y);
    var i := FindId(ds, PairId(x, y));
    if i < |ds| {
      PairIdInjective(ds[i].a, ds[i].b, x, y);
      assert ds[i].Joins(x, y);
      assert k < |ds| && ds[k].Joins(x, y);
      assert k == i;
      LoadTalkOf(p, db, c, i);
    } else {
      LoadTalkNone(p, db, c, PairId(x, y));
      assert k < |ds| ==> ds[k].Id() != PairId(x, y);
    }
  }

  /** The two-order lookup as the services write it. */
  function Lookup(p: Platform, db: Data, x: string, y: string): (t: Attempt<Conversation>) {
    var first :- LoadTalk(p, db, PairId(x, y));
    if first.id == NO_CONVERSATION_ID then LoadTalk(p, db, PairId(y, x)) else Done(first)
  }

  /** It finds the dialogue of the pair, whichever order it was opened in. */
  lemma LookupPair(p: Platform, db: Data, c: Chat, x: string, y: string)
    requires p.Lawful() && Valid(c) && Stores(p, db, c) && x in c.users && y in c.users
    ensures var t := Lookup(p, db, x, y);
            var k := FindPair(c.dialogues, x, y);
            if k < |c.dialogues| then
              t == Reloaded(p, c, c.dialogues[k]) && (t.Done? ==> t.value.id != NO_CONVERSATION_ID)
            else
              && t == Done(Conversation(NO_CONVERSATION_ID, [], []))
              && LoadTalk(p, db, PairId(x, y)) == t == LoadTalk(p, db, PairId(y, x))
  {
    hide LoadTalk, Reloaded, PairId, Stores;
    LookupOne(p, db, c, x, y);
    LookupOne(p, db, c, y, x);
    FindPairSymmetric(c.dialogues, x, y);
  }

  /** A delivery is a lookup and a save. */
  lemma DeliverIs(p: Platform, db: Data, s: User, r: User, m: Message)
    ensures var t := Lookup(p, db, s.id, r.id);
            Deliver(p, db, s, r, m) ==
            if t.Raised? then Raised
            else if t.value.id != NO_CONVERSATION_ID then
              Done(SaveTalk(p, db, t.value.(messages := t.value.messages + [m])))
            else Done(SaveTalk(p, db, Conversation(NameOf("", [s, r]), [s, r], [m])))
  {
    hide LoadTalk, SaveTalk;
  }

  /** Delivering a message to the texts is saying it in the chat. */
  lemma DeliverIsSay(p: Platform, db: Data, c: Chat, x: string, y: string, m: Message)
    requires p.Lawful() && Valid(c) && Stores(p, db, c) && x in c.users && y in c.users
    ensures var after, said := Deliver(p, db, c.users[x], c.users[y], m), Say(p, c, x, y, m);
            && (after.Done? <==> said.Done?)
            && (said.Done? ==> Stores(p, after.value, said.value) && Valid(said.value))
  {
    hide Lookup, SaveTalk, Reread, Stores, PairId, Deliver;
    DeliverIs(p, db, c.users[x], c.users[y], m);
    LookupPair(p, db, c, x, y);
    var k := FindPair(c.dialogues, x, y);
    if k < |c.dialogues| {
      var d := c.dialogues[k];
      var log := Reread(p, d.log);
      if log.Done? { SaveAgain(p, db, c, k, d.(log := log.value + [m])); }
    } else {
      NewTalkId(c.users[x], c.users[y]);
      SaveFirst(p, db, c, Dialogue(x, y, [m]));
    }
    SayIsValid(p, c, x, y, m);
  }

  lemma SayIsValid(p: Platform, c: Chat, x: string, y: string, m: Message)
    requires Valid(c) && x in c.users && y in c.users
    ensures Say(p, c, x, y, m).Done? ==> Valid(Say(p, c, x, y, m).value)
  {
    hide Reread, PairId;
  }
}
