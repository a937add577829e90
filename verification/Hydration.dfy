/** What the rows of a mailbox hold after the answers of a batch were saved, column by column. */
module Hydration {
  import opened Prelude
  import opened Store
  import opened SyncEngine
  import Replay

  // ---------------------------------------------------------------- one answer

  predicate IsMessage(e: Email, a: Uuid, p: string) {
    e.account == a && e.messageId == p
  }

  /**
   * `e` is the row of message `m.id` after its answer `m` was saved over `before`: subject, sender and flag are the
   * answer's, a missing snippet keeps the old one, and the rest is the answer's only where there was no row.
   */
  ghost predicate HoldsAnswer(e: Email, before: Option<Email>, a: Uuid, m: Metadata, now: int) {
    && IsMessage(e, a, m.id)
    && e.subject == Some(m.subject) && e.sender == Some(m.sender) && e.isRead == m.isRead
    && (if before.None? then
          && e.receivedAt == m.receivedAt && e.createdAt == now && e.snippet == m.snippet
          && !e.viewed && !e.trashed && e.trashedAt == None
        else
          var was := before.value;
          && e.receivedAt == was.receivedAt && e.createdAt == was.createdAt && e.viewed == was.viewed
          && e.trashed == was.trashed && e.trashedAt == was.trashedAt
          && e.snippet == if m.snippet.Some? then m.snippet else was.snippet)
  }

  function At(emails: map<Uuid, Email>, id: Uuid): Option<Email> {
    if id in emails then Some(emails[id]) else None
  }

  /** Saving an answer writes its fields into the one row of its message and nothing else. */
  lemma SavedAnswer(db: Db, a: Uuid, m: Metadata, now: int, id: Uuid)
    requires WF(db) && a in db.accounts
    ensures var after := Apply(db, SaveEmail(a, m.ToIncoming(), now));
            if id in after.emails && IsMessage(after.emails[id], a, m.id)
            then HoldsAnswer(after.emails[id], At(db.emails, id), a, m, now)
            else At(after.emails, id) == At(db.emails, id)
  {
    if j :| j in db.emails && IsMessage(db.emails[j], a, m.id) {
      assert id in db.emails && IsMessage(db.emails[id], a, m.id) ==> SameKey(db.emails[id], db.emails[j]);
      SavedOver(db, a, m, now, j);
    } else {
      assert db.nextId !in db.emails;
      SavedNew(db, a, m, now);
    }
    hide Apply, WF;
  }

  lemma SavedOver(db: Db, a: Uuid, m: Metadata, now: int, j: Uuid)
    requires j in db.emails && IsMessage(db.emails[j], a, m.id)
    ensures var after := Apply(db, SaveEmail(a, m.ToIncoming(), now));
            && after.emails.Keys == db.emails.Keys
            && (forall id | id in db.emails ::
                  if IsMessage(db.emails[id], a, m.id)
                  then HoldsAnswer(after.emails[id], Some(db.emails[id]), a, m, now)
                  else after.emails[id] == db.emails[id])
  {
    assert j in ByMessage(a, m.id).In(db.emails);
  }

  lemma SavedNew(db: Db, a: Uuid, m: Metadata, now: int)
    requires a in db.accounts && db.nextId !in db.emails
    requires forall id | id in db.emails :: !IsMessage(db.emails[id], a, m.id)
    ensures var after := Apply(db, SaveEmail(a, m.ToIncoming(), now));
            && after.emails.Keys == db.emails.Keys + {db.nextId}
            && HoldsAnswer(after.emails[db.nextId], None, a, m, now)
            && (forall id | id in db.emails :: after.emails[id] == db.emails[id])
  {
    assert ByMessage(a, m.id).In(db.emails) == {};
  }

  // ---------------------------------------------------------------- a whole batch

  /** Answer `i` is about message `p`, and none after it is. */
  ghost predicate IsLast(results: seq<Hydrated>, p: string, i: nat) {
    i < |results| && Replay.Answers(results[i], p) && forall j | i < j < |results| :: !Replay.Answers(results[j], p)
  }

  ghost predicate IsFirst(results: seq<Hydrated>, p: string, i: nat) {
    i < |results| && Replay.Answers(results[i], p) && forall j | 0 <= j < i :: !Replay.Answers(results[j], p)
  }

  predicate HasSnippet(r: Hydrated, p: string) {
    Replay.Answers(r, p) && r.meta.snippet.Some?
  }

  /** Answer `i` is the last one about `p` that carries a snippet. */
  ghost predicate IsLastSnippet(results: seq<Hydrated>, p: string, i: nat) {
    i < |results| && HasSnippet(results[i], p) && forall j | i < j < |results| :: !HasSnippet(results[j], p)
  }

  lemma {:induction false} NoAnswerNoChange(o: Option<RowView>, results: seq<Hydrated>, p: string)
    requires forall i | 0 <= i < |results| :: !Replay.Answers(results[i], p)
    ensures Replay.SavedAll(o, results, p) == o
  {
    if results != [] {
      NoAnswerNoChange(o, results[..|results| - 1], p);
    }
  }

  lemma {:induction false} LastAnswerHolds(o: Option<RowView>, results: seq<Hydrated>, p: string, i: nat)
    requires IsLast(results, p, i)
    ensures var x, m := Replay.SavedAll(o, results, p), results[i].meta;
            x.Some? && x.value.subject == Some(m.subject) && x.value.sender == Some(m.sender)
            && x.value.isRead == m.isRead
  {
    var n := |results| - 1;
    if i < n {
      assert !Replay.Answers(results[n], p);
      LastAnswerHolds(o, results[..n], p, i);
    }
  }

  lemma {:induction false} FirstAnswerHolds(o: Option<RowView>, results: seq<Hydrated>, p: string, i: nat)
    requires IsFirst(results, p, i)
    ensures var x := Replay.SavedAll(o, results, p);
            x.Some? && if o.Some? then SameState(x.value, o.value)
                       else x.value.receivedAt == results[i].meta.receivedAt && !x.value.viewed && !x.value.trashed
  {
    var n := |results| - 1;
    if i < n {
      FirstAnswerHolds(o, results[..n], p, i);
    } else {
      NoAnswerNoChange(o, results[..n], p);
    }
  }

  /** Delivery time, viewed mark and trash flag. */
  predicate SameState(r: RowView, s: RowView) {
    r.receivedAt == s.receivedAt && r.viewed == s.viewed && r.trashed == s.trashed
  }

  lemma {:induction false} NoSnippetKeeps(o: Option<RowView>, results: seq<Hydrated>, p: string)
    requires forall i | 0 <= i < |results| :: !HasSnippet(results[i], p)
    ensures Replay.SnippetOf(Replay.SavedAll(o, results, p)) == Replay.SnippetOf(o)
  {
    if results != [] {
      assert !HasSnippet(results[|results| - 1], p);
      NoSnippetKeeps(o, results[..|results| - 1], p);
    }
  }

  lemma {:induction false} LastSnippetHolds(o: Option<RowView>, results: seq<Hydrated>, p: string, i: nat)
    requires IsLastSnippet(results, p, i)
    ensures Replay.SnippetOf(Replay.SavedAll(o, results, p)) == results[i].meta.snippet
  {
    var n := |results| - 1;
    if i < n {
      assert !HasSnippet(results[n], p);
      LastSnippetHolds(o, results[..n], p, i);
    }
  }

  /**
   * The row `e` of message `p` after a batch that answered it at least once, saved over `before`: subject, sender
   * and flag of the last answer, the last snippet there was, and on a new row the time of the first answer.
   */
  ghost predicate HoldsAnswers(e: Email, before: Option<Email>, results: seq<Hydrated>, p: string) {
    && (forall i: nat | IsLast(results, p, i) ::
          e.subject == Some(results[i].meta.subject) && e.sender == Some(results[i].meta.sender)
          && e.isRead == results[i].meta.isRead)
    && (forall i: nat | IsLastSnippet(results, p, i) :: e.snippet == results[i].meta.snippet)
    && (if before.Some? then
          && e.receivedAt == before.value.receivedAt && e.viewed == before.value.viewed
          && e.trashed == before.value.trashed
        else
          && !e.viewed && !e.trashed
          && forall i: nat | IsFirst(results, p, i) :: e.receivedAt == results[i].meta.receivedAt)
    && ((forall i | 0 <= i < |results| :: !HasSnippet(results[i], p)) ==>
          e.snippet == if before.Some? then before.value.snippet else None)
  }

  /** The row is the one of some answered message. */
  ghost predicate Asked(results: seq<Hydrated>, a: Uuid, e: Email) {
    e.account == a && exists i | 0 <= i < |results| :: Replay.Answers(results[i], e.messageId)
  }

  lemma RunSaves(db: Db, a: Uuid, results: seq<Hydrated>, now: int)
    requires WF(db) && a in db.accounts
    ensures var after := Run(db, SaveWrites(a, results, now));
            && WF(after) && Evolves(db, after) && a in after.accounts
            && forall p :: Row(after, a, p) == Replay.SavedAll(Row(db, a, p), results, p)
  {
    var ws := SaveWrites(a, results, now);
    forall w | w in ws ensures IsPassWrite(w, a) {
      SaveWriteShape(a, results, now, w);
    }
    RunOk(db, ws);
    forall p ensures Row(Run(db, ws), a, p) == Replay.SavedAll(Row(db, a, p), results, p) {
      RowAfterRun(db, ws, a, a, p);
      Replay.SavesOnRow(Row(db, a, p), a, results, now, p);
    }
    RowAfterRun(db, ws, a, a, "");
  }

  ghost predicate HasRow(emails: map<Uuid, Email>, a: Uuid, p: string) {
    exists id | id in emails :: IsMessage(emails[id], a, p)
  }

  /** Row `id` afterwards: it holds the answers to its message, if there were any, and is unchanged otherwise. */
  ghost predicate RowHydrated(before: map<Uuid, Email>, after: map<Uuid, Email>, a: Uuid, results: seq<Hydrated>,
                              id: Uuid) {
    && (id in before ==> id in after)
    && (id in after ==>
          if Asked(results, a, after[id]) then HoldsAnswers(after[id], At(before, id), results, after[id].messageId)
          else At(before, id) == Some(after[id]))
  }

  /** What a saved batch leaves in the table of emails: every answered message has a row, which holds the answers. */
  ghost predicate Hydrates(before: map<Uuid, Email>, after: map<Uuid, Email>, a: Uuid, results: seq<Hydrated>) {
    && (forall i | 0 <= i < |results| && results[i].Ready? :: HasRow(after, a, results[i].meta.id))
    && (forall id :: RowHydrated(before, after, a, results, id))
  }

  /** A batch deletes no row and leaves every row of another message as it was. */
  lemma {:induction false} OtherRowsStay(db: Db, a: Uuid, results: seq<Hydrated>, now: int, id: Uuid)
    requires WF(db) && a in db.accounts
    ensures var after := Run(db, SaveWrites(a, results, now)).emails;
            && (id in db.emails ==> id in after)
            && (id in after && !Asked(results, a, after[id]) ==> At(db.emails, id) == Some(after[id]))
  {
    if results != [] {
      var init, last := results[..|results| - 1], results[|results| - 1];
      var mid := Run(db, SaveWrites(a, init, now));
      OtherRowsStay(db, a, init, now, id);
      RunSaves(db, a, init, now);
      if last.Ready? {
        SavedAnswer(mid, a, last.meta, now, id);
        RunConcat(db, SaveWrites(a, init, now), [SaveEmail(a, last.meta.ToIncoming(), now)]);
        assert Run(db, SaveWrites(a, results, now)) == Apply(mid, SaveEmail(a, last.meta.ToIncoming(), now));
      } else {
        assert SaveWrites(a, results, now) == SaveWrites(a, init, now);
      }
      hide WF, Run, SaveWrites, HoldsAnswer;
      var after := Run(db, SaveWrites(a, results, now)).emails;
      if id in after && !Asked(results, a, after[id]) {
        assert !Replay.Answers(last, after[id].messageId) || after[id].account != a;
        assert forall i | 0 <= i < |init| :: results[i] == init[i];
      }
    }
  }

  /** The view of the row that the table had for the message, seen from its row afterwards. */
  lemma EarlierView(db: Db, after: Db, a: Uuid, p: string, id: Uuid)
    requires WF(db) && WF(after) && Evolves(db, after) && forall j | j in db.emails :: j in after.emails
    requires id in after.emails && IsMessage(after.emails[id], a, p)
    ensures Row(after, a, p) == Some(View(after.emails[id]))
    ensures Row(db, a, p) == if id in db.emails then Some(View(db.emails[id])) else None
  {
    RowIs(after, a, p, id);
    if id in db.emails {
      assert SameIdentity(db.emails[id], after.emails[id]);
      RowIs(db, a, p, id);
    } else {
      forall j | j in db.emails ensures !IsMessage(db.emails[j], a, p) {
        assert SameIdentity(db.emails[j], after.emails[j]) && j != id;
      }
      assert ByMessage(a, p).In(db.emails) == {};
      NoRow(db, a, p);
    }
  }

  lemma AskedHolds(e: Email, before: Option<Email>, results: seq<Hydrated>, p: string)
    requires exists i | 0 <= i < |results| :: Replay.Answers(results[i], p)
    requires Some(View(e)) == Replay.SavedAll(if before.Some? then Some(View(before.value)) else None, results, p)
    ensures HoldsAnswers(e, before, results, p)
  {
    var o := if before.Some? then Some(View(before.value)) else None;
    var i: nat := FirstOf(results, p);
    FirstAnswerHolds(o, results, p, i);
    forall i: nat | IsLast(results, p, i)
      ensures e.subject == Some(results[i].meta.subject) && e.sender == Some(results[i].meta.sender)
              && e.isRead == results[i].meta.isRead
    {
      LastAnswerHolds(o, results, p, i);
    }
    forall i: nat | IsLastSnippet(results, p, i) ensures e.snippet == results[i].meta.snippet {
      LastSnippetHolds(o, results, p, i);
    }
    forall k: nat | IsFirst(results, p, k) ensures k == i {
    }
    if forall i | 0 <= i < |results| :: !HasSnippet(results[i], p) {
      NoSnippetKeeps(o, results, p);
    }
  }

  lemma {:induction false} FirstOf(results: seq<Hydrated>, p: string) returns (i: nat)
    requires exists i | 0 <= i < |results| :: Replay.Answers(results[i], p)
    ensures IsFirst(results, p, i)
    decreases |results|
  {
    var k :| 0 <= k < |results| && Replay.Answers(results[k], p);
    if j :| 0 <= j < k && Replay.Answers(results[j], p) {
      assert results[..k][j] == results[j];
      i := FirstOf(results[..k], p);
    } else {
      i := k;
    }
  }

  lemma AnsweredRowHolds(db: Db, a: Uuid, results: seq<Hydrated>, now: int, id: Uuid)
    requires WF(db) && a in db.accounts
    requires id in Run(db, SaveWrites(a, results, now)).emails
    requires Asked(results, a, Run(db, SaveWrites(a, results, now)).emails[id])
    ensures var e := Run(db, SaveWrites(a, results, now)).emails[id];
            HoldsAnswers(e, At(db.emails, id), results, e.messageId)
  {
    var after := Run(db, SaveWrites(a, results, now));
    RunSaves(db, a, results, now);
    forall j ensures j in db.emails ==> j in after.emails {
      OtherRowsStay(db, a, results, now, j);
    }
    hide Run, SaveWrites, WF, Evolves, HoldsAnswers;
    EarlierView(db, after, a, after.emails[id].messageId, id);
    AskedHolds(after.emails[id], At(db.emails, id), results, after.emails[id].messageId);
  }

  lemma AnsweredHasRow(db: Db, a: Uuid, results: seq<Hydrated>, now: int, i: nat)
    requires WF(db) && a in db.accounts && i < |results| && results[i].Ready?
    ensures HasRow(Run(db, SaveWrites(a, results, now)).emails, a, results[i].meta.id)
  {
    var p := results[i].meta.id;
    assert Replay.Answers(results[i], p);
    RunSaves(db, a, results, now);
    hide Run, SaveWrites, WF, Evolves;
    var k := FirstOf(results, p);
    FirstAnswerHolds(Row(db, a, p), results, p, k);
    assert Row(Run(db, SaveWrites(a, results, now)), a, p).Some?;
  }

  /** Saving a whole batch gives every answered message a row with its answers, and changes no other row. */
  lemma SavedBatch(db: Db, a: Uuid, results: seq<Hydrated>, now: int)
    requires WF(db) && a in db.accounts
    ensures Hydrates(db.emails, Run(db, SaveWrites(a, results, now)).emails, a, results)
  {
    var after := Run(db, SaveWrites(a, results, now)).emails;
    hide *;
    forall i | 0 <= i < |results| && results[i].Ready? ensures HasRow(after, a, results[i].meta.id) {
      AnsweredHasRow(db, a, results, now, i);
    }
    forall id ensures RowHydrated(db.emails, after, a, results, id) {
      RowIsHydrated(db, a, results, now, id);
    }
    AllHydrate(db.emails, after, a, results);
  }

  lemma AllHydrate(before: map<Uuid, Email>, after: map<Uuid, Email>, a: Uuid, results: seq<Hydrated>)
    requires forall i | 0 <= i < |results| && results[i].Ready? :: HasRow(after, a, results[i].meta.id)
    requires forall id :: RowHydrated(before, after, a, results, id)
    ensures Hydrates(before, after, a, results)
  {
  }

  lemma RowIsHydrated(db: Db, a: Uuid, results: seq<Hydrated>, now: int, id: Uuid)
    requires WF(db) && a in db.accounts
    ensures RowHydrated(db.emails, Run(db, SaveWrites(a, results, now)).emails, a, results, id)
  {
    var after := Run(db, SaveWrites(a, results, now)).emails;
    OtherRowsStay(db, a, results, now, id);
    if id in after && Asked(results, a, after[id]) {
      AnsweredRowHolds(db, a, results, now, id);
    }
    hide Run, SaveWrites, WF, HoldsAnswers, Asked;
  }
}
