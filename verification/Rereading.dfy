/** When a stored message list survives being written and read back. */
module Rereading {
  import opened StringUtil
  import opened Records
  import opened Tables
  import opened Chat

  /** A log survives being written and read back exactly when none of its
      members holds the list separator. */
  lemma RereadExact(p: Platform, log: seq<Message>)
    requires p.Lawful()
    ensures Reread(p, log) == Done(log) <==> forall i :: 0 <= i < |log| ==> Clean(log[i])
  {
    hide Split, Join, WriteMessage, ReadMessage, Clean, Listable;
    var texts := WriteMessages(p, log);
    SplitInvertsJoin(texts, SEPARATOR);
    if forall i :: 0 <= i < |log| ==> Clean(log[i]) {
      CleanIsListable(p, log);
      ReadWritten(p, log);
    } else {
      DirtySplitsMore(p, log);
    }
  }

  lemma CleanIsListable(p: Platform, log: seq<Message>)
    requires p.Lawful() && forall i :: 0 <= i < |log| ==> Clean(log[i])
    ensures Listable(WriteMessages(p, log), SEPARATOR)
  {
    hide WriteMessage, Clean;
    var texts := WriteMessages(p, log);
    forall i | 0 <= i < |log| ensures texts[i] != "" && SEPARATOR !in texts[i] {
      WrittenMessage(p, log[i]);
    }
  }

  lemma ReadWritten(p: Platform, log: seq<Message>)
    requires p.Lawful()
    ensures ReadMessages(p, WriteMessages(p, log)) == Done(log)
  {
    hide WriteMessage, ReadMessage;
    var ws := WriteMessages(p, log);
    forall i | 0 <= i < |log| ensures ReadMessage(p, ws[i]) == Done(log[i]) {
      MessageRoundTrip(p, log[i]);
    }
    assert ReadMessages(p, ws).value == log;
  }

  /** How many separators a text holds. */
  ghost function Count(s: string, d: char): (n: nat) {
    if s == "" then 0 else (if s[0] == d then 1 else 0) + Count(s[1..], d)
  }

  lemma {:induction false} CountConcat(s: string, t: string, d: char)
    ensures Count(s + t, d) == Count(s, d) + Count(t, d)
  {
    if s == "" {
      assert s + t == t;
    } else {
      assert (s + t)[1..] == s[1..] + t;
      CountConcat(s[1..], t, d);
    }
  }

  lemma {:induction false} CountPositive(s: string, d: char)
    ensures Count(s, d) > 0 <==> d in s
  {
    if s != "" { CountPositive(s[1..], d); }
  }

  lemma {:induction false} FieldsCount(s: string, d: char)
    ensures |Fields(s, d)| == Count(s, d) + 1
  {
    if s != "" { FieldsCount(s[1..], d); }
  }

  /** Each separator inside a written message adds a piece. */
  lemma {:induction false} JoinedCount(p: Platform, log: seq<Message>)
    requires p.Lawful() && log != []
    ensures var s := Join(WriteMessages(p, log), SEPARATOR);
            && s != "" && s[|s| - 1] != SEPARATOR
            && Count(s, SEPARATOR) >= |log| - 1
            && ((exists i :: 0 <= i < |log| && !Clean(log[i])) ==> Count(s, SEPARATOR) >= |log|)
  {
    hide WriteMessage, Clean;
    var n := |log| - 1;
    var texts := WriteMessages(p, log);
    WrittenMessage(p, log[n]);
    CountPositive(texts[n], SEPARATOR);
    assert texts[..n] == WriteMessages(p, log[..n]);
    if n == 0 {
      assert texts[..0] == [];
      assert Join(texts, SEPARATOR) == "" + texts[0] == texts[0];
    } else {
      JoinedCount(p, log[..n]);
      var acc := Join(texts[..n], SEPARATOR);
      CountConcat(acc + [SEPARATOR], texts[n], SEPARATOR);
      CountConcat(acc, [SEPARATOR], SEPARATOR);
      assert Count([SEPARATOR], SEPARATOR) == 1;
      if i :| 0 <= i < |log| && !Clean(log[i]) && i < n { assert !Clean(log[..n][i]); }
    }
  }

  /** A log with a separator in it reads back as more messages than were written, or not at all. */
  lemma DirtySplitsMore(p: Platform, log: seq<Message>)
    requires p.Lawful() && exists i :: 0 <= i < |log| && !Clean(log[i])
    ensures Reread(p, log).Done? ==> |Reread(p, log).value| > |log|
  {
    hide Split, Fields, WriteMessages, Clean, Join;
    var s := Join(WriteMessages(p, log), SEPARATOR);
    JoinedCount(p, log);
    FieldsCount(s, SEPARATOR);
    SplitIsFields(s, SEPARATOR);
    LastField(s, SEPARATOR);
  }

  lemma RereadNonEmpty(p: Platform, log: seq<Message>)
    requires p.Lawful() && log != []
    ensures Reread(p, log).Done? ==> |Reread(p, log).value| >= |log|
  {
    hide Split, Fields, WriteMessages, Clean, Join;
    var s := Join(WriteMessages(p, log), SEPARATOR);
    JoinedCount(p, log);
    FieldsCount(s, SEPARATOR);
    SplitIsFields(s, SEPARATOR);
    LastField(s, SEPARATOR);
  }
}
