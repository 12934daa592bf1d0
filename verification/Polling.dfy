/** A client that keeps a copy of one conversation by polling for what follows the
    last message it holds, while other requests are served. */
module Polling {
  import opened Records
  import opened Tables
  import opened Requests
  import opened Chat
  import opened Runs
  import opened Rereading
  import opened Saying
  import opened Guarantees

  /** The server serves a request of anyone, or the client polls. */
  datatype Event = Serve(request: Request) | Poll

  function Served(es: seq<Event>): (rs: seq<Request>) {
    if es == [] then []
    else
      var n := |es| - 1;
      Served(es[..n]) + if es[n].Serve? then [es[n].request] else []
  }

  function LastId(ms: seq<Message>): (id: string) {
    if ms == [] then "" else ms[|ms| - 1].id
  }

  /** What the client holds after the events: each poll sends the id of the last
      message held and appends the messages answered. */
  function Held(p: Platform, id: string, es: seq<Event>): (ms: seq<Message>) {
    if es == [] then []
    else
      var n := |es| - 1;
      var held := Held(p, id, es[..n]);
      if es[n].Serve? then held else AfterPoll(p, Run(p, Served(es[..n])), id, held)
  }

  /** The messages of the conversation on the server after the events. */
  function ServerLog(p: Platform, id: string, es: seq<Event>): (ms: Attempt<seq<Message>>) {
    LoadMessages(p, Run(p, Served(es)), id)
  }

  /** The client holds a prefix of the server's messages, and all of them right after a poll. */
  ghost predicate Lossless(p: Platform, id: string, es: seq<Event>) {
    var log, held := ServerLog(p, id, es), Held(p, id, es);
    && log.Done? && held <= log.value
    && (es != [] && es[|es| - 1].Poll? ==> held == log.value)
  }

  ghost predicate DistinctIds(ms: seq<Message>) {
    forall i, j :: 0 <= i < j < |ms| ==> ms[i].id != ms[j].id
  }

  lemma {:induction false} AfterFirst(log: seq<Message>, k: nat)
    requires k < |log| && forall i :: 0 <= i < k ==> log[i].id != log[k].id
    ensures After(log, log[k].id) == log[k + 1..]
  {
    if k > 0 { AfterFirst(log[1..], k - 1); }
  }

  /** Asking from message `k` on answers exactly the messages after it if and only if
      no earlier message has the same id. */
  lemma SinceExact(log: seq<Message>, k: nat)
    requires k < |log| && log[k].id != ""
    ensures Since(log, log[k].id) == log[k + 1..] <==> forall i :: 0 <= i < k ==> log[i].id != log[k].id
  {
    if forall i :: 0 <= i < k ==> log[i].id != log[k].id {
      AfterFirst(log, k);
    } else {
      var f := FirstWith(log, k);
      AfterFirst(log, f);
      assert |log[f + 1..]| > |log[k + 1..]|;
    }
  }

  lemma {:induction false} FirstWith(log: seq<Message>, k: nat) returns (f: nat)
    requires k < |log|
    ensures f <= k && log[f].id == log[k].id
    ensures forall i :: 0 <= i < f ==> log[i].id != log[f].id
    ensures (exists i :: 0 <= i < k && log[i].id == log[k].id) ==> f < k
  {
    if i :| 0 <= i < k && log[i].id == log[k].id { f := FirstWith(log, i); } else { f := k; }
  }

  lemma {:induction false} ServedPrefix(es: seq<Event>, k: nat)
    requires k <= |es|
    ensures |Served(es[..k])| <= |Served(es)| && Served(es)[..|Served(es[..k])|] == Served(es[..k])
    decreases |es|
  {
    if k < |es| {
      ServedPrefix(es[..|es| - 1], k);
      assert es[..|es| - 1][..k] == es[..k];
    } else {
      assert es[..k] == es;
    }
  }

  /** What a client holds after polling for what follows `held`. */
  function AfterPoll(p: Platform, db: Data, id: string, held: seq<Message>): (ms: seq<Message>) {
    var reply := Step(p, db, Fetch(id, LastId(held))).reply;
    if reply.Messages? then held + reply.messages else held
  }

  /** The conversation is stored and can be read. */
  predicate Readable(p: Platform, db: Data, id: string) {
    var t := LoadTalk(p, db, id);
    t.Done? && t.value.id != NO_CONVERSATION_ID
  }

  lemma PollAdds(p: Platform, db: Data, id: string, held: seq<Message>)
    requires Readable(p, db, id)
    ensures LoadMessages(p, db, id).Done?
    ensures AfterPoll(p, db, id, held) == held + Since(LoadMessages(p, db, id).value, LastId(held))
  {
    hide LoadTalk, LastId, Since;
  }

  /** A client that holds the first `k` messages of a stored conversation holds all of them
      after a poll if and only if it held none, or the last one it held carries an id that no
      earlier one carries. */
  lemma PollExact(p: Platform, db: Data, id: string, k: nat)
    requires Readable(p, db, id) && k <= |LoadTalk(p, db, id).value.messages|
    ensures var log := LoadTalk(p, db, id).value.messages;
            AfterPoll(p, db, id, log[..k]) == log <==>
            k == 0 || (log[k - 1].id != "" && forall i :: 0 <= i < k - 1 ==> log[i].id != log[k - 1].id)
  {
    hide LoadTalk, AfterPoll, After;
    var log := LoadTalk(p, db, id).value.messages;
    PollAdds(p, db, id, log[..k]);
    SameTail(log[..k], Since(log, LastId(log[..k])), log[k..]);
    assert log == log[..k] + log[k..];
    if k > 0 {
      assert LastId(log[..k]) == log[k - 1].id;
      if log[k - 1].id != "" {
        SinceExact(log, k - 1);
      } else {
        assert |log[..k] + log| > |log|;
      }
    }
  }

  lemma SameTail(a: seq<Message>, b: seq<Message>, c: seq<Message>)
    ensures a + b == a + c <==> b == c
  {
    if a + b == a + c { assert b == (a + b)[|a|..] == (a + c)[|a|..] == c; }
  }

  /** A conversation in which clean messages were said can be read; another reads as none. */
  lemma CleanIsReadable(p: Platform, rs: seq<Request>, id: string)
    requires p.Lawful() && AllClean(Said(p, rs, id))
    ensures LoadMessages(p, Run(p, rs), id) == Done(Said(p, rs, id))
    ensures Readable(p, Run(p, rs), id) || (Said(p, rs, id) == [] && LoadTalk(p, Run(p, rs), id).Done?)
  {
    hide Run, Play, LoadTalk, Said, PairId, Stores, Valid, Clean, StoredIds, Reread;
    ReadsWhatWasSaid(p, rs, id);
    RunHolds(p, rs);
    var c := Play(p, rs);
    var k := FindId(c.dialogues, id);
    if k < |c.dialogues| { LoadTalkOf(p, Run(p, rs), c, k); } else { LoadTalkNone(p, Run(p, rs), c, id); }
  }

  /** Whatever the interleaving, and whatever is said in other conversations, the client holds
      a prefix of the server's log, without loss or repetition, and the whole log right after
      each poll, as long as the messages said in this conversation are clean and have distinct
      ids. */
  lemma {:induction false} PollingIsLossless(p: Platform, id: string, es: seq<Event>)
    requires p.Lawful() && AllClean(Said(p, Served(es), id)) && DistinctIds(Said(p, Served(es), id))
    ensures ServerLog(p, id, es) == Done(Said(p, Served(es), id)) && Lossless(p, id, es)
    decreases |es|
  {
    hide Run, LoadMessages, Said, Clean, AfterPoll;
    CleanIsReadable(p, Served(es), id);
    if es != [] {
      var n := |es| - 1;
      var rs, rs' := Served(es), Served(es[..n]);
      ServedPrefix(es, n);
      SaidGrows(p, rs, |rs'|, id);
      PollingIsLossless(p, id, es[..n]);
      if es[n].Poll? {
        assert rs == rs' + [] == rs';
        PollCatchesUp(p, rs, id, Held(p, id, es[..n]));
      }
    }
  }

  lemma PollCatchesUp(p: Platform, rs: seq<Request>, id: string, held: seq<Message>)
    requires p.Lawful() && AllClean(Said(p, rs, id)) && DistinctIds(Said(p, rs, id)) && held <= Said(p, rs, id)
    ensures AfterPoll(p, Run(p, rs), id, held) == Said(p, rs, id)
  {
    hide Run, LoadTalk, Said, Clean, Since, AfterPoll;
    var db, log := Run(p, rs), Said(p, rs, id);
    CleanIsReadable(p, rs, id);
    SaidIsClean(p, rs, id);
    if Readable(p, db, id) {
      assert log[..|held|] == held;
      PollExact(p, db, id, |held|);
    } else {
      NothingToPoll(p, db, id);
    }
  }

  lemma NothingToPoll(p: Platform, db: Data, id: string)
    requires !Readable(p, db, id)
    ensures AfterPoll(p, db, id, []) == []
  {
    hide LoadTalk;
  }

  // ---------------------------------------------------------------------
  // Repeated ids.

  function Serves(rs: seq<Request>): (es: seq<Event>) {
    if rs == [] then [] else Serves(rs[..|rs| - 1]) + [Serve(rs[|rs| - 1])]
  }

  lemma {:induction false} ServesOnly(p: Platform, id: string, rs: seq<Request>)
    ensures Served(Serves(rs)) == rs && Held(p, id, Serves(rs)) == []
  {
    hide AfterPoll, Run;
    if rs != [] {
      var n, es := |rs| - 1, Serves(rs);
      ServesOnly(p, id, rs[..n]);
      assert es[..|es| - 1] == Serves(rs[..n]);
    }
  }

  lemma PollNext(p: Platform, id: string, es: seq<Event>)
    ensures Served(es + [Poll]) == Served(es)
    ensures Held(p, id, es + [Poll]) == AfterPoll(p, Run(p, Served(es)), id, Held(p, id, es))
  {
    hide AfterPoll, Run;
    assert (es + [Poll])[..|es|] == es;
  }

  /** The runs below: two users register, then the first posts twice to the second. */
  function TwoPosts(a: string, b: string, first: string, second: string, date: string): (rs: seq<Request>) {
    [Register("A", a, "", ""), Register("B", b, "", ""), Post(a, b, "", first, date), Post(a, b, "", second, date)]
  }

  lemma TwoSaid(p: Platform, a: string, b: string, first: string, second: string, date: string)
    requires p.Lawful() && p.digest(a) != p.digest(b)
    requires SEPARATOR !in first && SEPARATOR !in date
    ensures var x, y := p.digest(a), p.digest(b);
            Said(p, TwoPosts(a, b, first, second, date), PairId(x, y)) ==
            [NewMessage(p, first, x, date), NewMessage(p, second, x, date)]
  {
    hide PairId, Reread, Said, Play, NewMessage, Clean;
    var x, y := p.digest(a), p.digest(b);
    var id, m := PairId(x, y), NewMessage(p, first, x, date);
    var rs, post := TwoPosts(a, b, first, second, date), OnePost(a, b, first, date);
    assert post == [rs[0], rs[1], rs[2]] && post + [rs[3]] == rs;
    assert [rs[0], rs[1]] + [rs[2]] == post;
    OneSaid(p, a, b, first, date);
    TwoUsers(p, a, b);
    PlaySnoc(p, [rs[0], rs[1]], rs[2]);
    SaidSnoc(p, post, rs[3], id);
    NewIsClean(p, first, a, date);
    assert Play(p, post).dialogues == [Dialogue(x, y, [m])];
    assert Clean([m][0]);
    RereadExact(p, [m]);
  }

  /** Two messages of one sender with one date have one id.  After any two such posts a client
      that polls twice holds the second message twice. */
  lemma RepeatedIdRepeats(p: Platform, a: string, b: string, first: string, second: string, date: string)
    requires p.Lawful() && p.digest(a) != p.digest(b)
    requires SEPARATOR !in first && SEPARATOR !in second && SEPARATOR !in date
    ensures var x := p.digest(a);
            var m, n := NewMessage(p, first, x, date), NewMessage(p, second, x, date);
            var es := Serves(TwoPosts(a, b, first, second, date)) + [Poll] + [Poll];
            var id := PairId(x, p.digest(b));
            ServerLog(p, id, es) == Done([m, n]) && Held(p, id, es) == [m, n, n]
  {
    hide Run, LoadTalk, Said, Clean, PairId, Held, Served, Serves, TwoPosts, AfterPoll;
    var x, id := p.digest(a), PairId(p.digest(a), p.digest(b));
    var m, n := NewMessage(p, first, x, date), NewMessage(p, second, x, date);
    var rs := TwoPosts(a, b, first, second, date);
    TwoSaid(p, a, b, first, second, date);
    NewIsClean(p, first, a, date);
    NewIsClean(p, second, a, date);
    PolledTwice(p, rs, id);
    assert After([m, n], m.id) == [n];
    assert [m, n] + [n] == [m, n, n];
  }

  /** Two polls after the requests, nothing held before. */
  lemma PolledTwice(p: Platform, rs: seq<Request>, id: string)
    requires p.Lawful() && AllClean(Said(p, rs, id)) && Said(p, rs, id) != []
    ensures var es, log := Serves(rs) + [Poll] + [Poll], Said(p, rs, id);
            && Served(es) == rs && ServerLog(p, id, es) == Done(log)
            && Held(p, id, es) == log + After(log, LastId(log))
  {
    hide Run, LoadMessages, Said, Clean, Held, Served, Serves, AfterPoll, Readable, After;
    var es, log := Serves(rs), Said(p, rs, id);
    CleanIsReadable(p, rs, id);
    SaidIsClean(p, rs, id);
    ServesOnly(p, id, rs);
    PollNext(p, id, es);
    PollNext(p, id, es + [Poll]);
    PollAdds(p, Run(p, rs), id, []);
    PollAdds(p, Run(p, rs), id, log);
    assert [] + log == log;
  }

  // ---------------------------------------------------------------------
  // When polling loses and repeats nothing.

  /** The first request that repeats an id. */
  lemma {:induction false} FirstRepeat(p: Platform, rs: seq<Request>, id: string) returns (k: nat)
    requires !DistinctIds(Said(p, rs, id))
    ensures k < |rs| && DistinctIds(Said(p, rs[..k], id)) && !DistinctIds(Said(p, rs[..k + 1], id))
  {
    hide SaidBy, DistinctIds;
    var n := |rs| - 1;
    assert DistinctIds([]) by { NoIds(); }
    assert rs[..n + 1] == rs;
    if DistinctIds(Said(p, rs[..n], id)) {
      k := n;
    } else {
      k := FirstRepeat(p, rs[..n], id);
      assert rs[..n][..k] == rs[..k] && rs[..n][..k + 1] == rs[..k + 1];
    }
  }

  lemma NoIds()
    ensures DistinctIds([])
  {
  }

  /** It says one and the same message, so the last message said carries the repeated id. */
  lemma LastRepeats(before: seq<Message>, ms: seq<Message>)
    requires DistinctIds(before) && !DistinctIds(before + ms) && ms != [] && Only(ms, ms[0])
    ensures var log := before + ms;
            exists i :: 0 <= i < |log| - 1 && log[i].id == log[|log| - 1].id
  {
    var log := before + ms;
    var i, j :| 0 <= i < j < |log| && log[i].id == log[j].id;
    assert j >= |before|;
    assert log[j] == ms[j - |before|] == ms[0];
    assert log[|log| - 1] == ms[|ms| - 1] == ms[0];
    if j < |log| - 1 { assert log[j].id == log[|log| - 1].id; } else { assert log[i].id == log[|log| - 1].id; }
  }

  /** So two polls behind it repeat messages. */
  lemma RepeatLoses(p: Platform, rs: seq<Request>, id: string) returns (es: seq<Event>)
    requires p.Lawful() && AllClean(Said(p, rs, id)) && !DistinctIds(Said(p, rs, id))
    ensures Served(es) <= rs && !Lossless(p, id, es)
  {
    hide Run, Said, Clean, SaidBy, Held, Served, ServerLog, After, Play;
    var k := FirstRepeat(p, rs, id);
    var some := rs[..k + 1];
    var before, ms := Said(p, rs[..k], id), SaidBy(p, Play(p, rs[..k]), rs[k], id);
    assert some == rs[..k] + [rs[k]];
    SaidSnoc(p, rs[..k], rs[k], id);
    assert ms == [] ==> before + ms == before;
    SaidByIs(p, Play(p, rs[..k]), rs[k], id);
    LastRepeats(before, ms);
    SaidGrows(p, rs, k + 1, id);
    var log := Said(p, some, id);
    var f := FirstWith(log, |log| - 1);
    AfterFirst(log, f);
    PolledTwice(p, some, id);
    es := Serves(some) + [Poll] + [Poll];
    assert |log + After(log, LastId(log))| > |log|;
  }

  /** Where clean messages are said, every interleaving of the requests with polls is lossless
      if and only if the ids said are distinct. */
  lemma LosslessExactly(p: Platform, rs: seq<Request>, id: string)
    requires p.Lawful() && AllClean(Said(p, rs, id))
    ensures (forall es: seq<Event> :: Served(es) <= rs ==> Lossless(p, id, es)) <==> DistinctIds(Said(p, rs, id))
  {
    hide Said, Clean, Lossless, Served;
    if DistinctIds(Said(p, rs, id)) {
      forall es: seq<Event> | Served(es) <= rs ensures Lossless(p, id, es) {
        SaidGrows(p, rs, |Served(es)|, id);
        assert rs[..|Served(es)|] == Served(es);
        PollingIsLossless(p, id, es);
      }
    } else {
      var es := RepeatLoses(p, rs, id);
    }
  }
}
