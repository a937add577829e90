/**
 * A pass that failed leaves the cursor where it was; repeating it cleanly gives the store
 * that the clean pass alone would have given. Rows are compared message by message, leaving
 * out identifiers and local timestamps.
 */
module Replay {
  import opened Prelude
  import opened Store
  import opened SyncEngine

  predicate Answers(r: Hydrated, p: string) {
    r.Ready? && r.meta.id == p
  }

  /** Delivery time in the first answer for `p`, if there is an answer at all. */
  function FirstAt(results: seq<Hydrated>, p: string): Option<int> {
    if results == [] then None
    else
      var earlier := FirstAt(results[..|results| - 1], p);
      var last := results[|results| - 1];
      if earlier.Some? then earlier
      else if Answers(last, p) then Some(last.meta.receivedAt)
      else None
  }

  predicate AnySnippet(results: seq<Hydrated>, p: string) {
    exists i | 0 <= i < |results| :: Answers(results[i], p) && results[i].meta.snippet.Some?
  }

  // ---------------------------------------------------------------- a pass, seen from one message

  function SavedAll(o: Option<RowView>, results: seq<Hydrated>, p: string): Option<RowView> {
    if results == [] then o
    else
      var earlier := SavedAll(o, results[..|results| - 1], p);
      var last := results[|results| - 1];
      if Answers(last, p) then Some(SavedRow(earlier, last.meta.ToIncoming())) else earlier
  }

  function MarkRow(o: Option<RowView>, page: SyncPage, p: string): Option<RowView> {
    var o1 := if p in page.trashedIds then Flagged(o, true) else o;
    var o2 := if p in page.restoredIds then Flagged(o1, false) else o1;
    if p in page.deletedIds then None else o2
  }

  function PassRow(o: Option<RowView>, page: SyncPage, results: seq<Hydrated>, p: string): Option<RowView> {
    MarkRow(SavedAll(o, results, p), page, p)
  }

  lemma {:induction false} SavesOnRow(o: Option<RowView>, a: Uuid, results: seq<Hydrated>, now: int, p: string)
    ensures RunRow(o, SaveWrites(a, results, now), a, p) == SavedAll(o, results, p)
  {
    if results != [] {
      var init, last := results[..|results| - 1], results[|results| - 1];
      SavesOnRow(o, a, init, now, p);
      if last.Ready? {
        RunRowConcat(o, SaveWrites(a, init, now), [SaveEmail(a, last.meta.ToIncoming(), now)], a, p);
      } else {
        assert SaveWrites(a, results, now) == SaveWrites(a, init, now);
      }
    }
  }

  lemma {:induction false} TrashOnRow(o: Option<RowView>, a: Uuid, ids: seq<string>, now: int, p: string)
    ensures RunRow(o, TrashWrites(a, ids, now), a, p) == if p in ids then Flagged(o, true) else o
    decreases |ids|
  {
    if ids != [] {
      assert TrashWrites(a, ids, now)[1..] == TrashWrites(a, ids[1..], now);
      TrashOnRow(RowStep(o, TrashWrites(a, ids, now)[0], a, p), a, ids[1..], now, p);
    }
  }

  lemma {:induction false} RestoreOnRow(o: Option<RowView>, a: Uuid, ids: seq<string>, p: string)
    ensures RunRow(o, RestoreWrites(a, ids), a, p) == if p in ids then Flagged(o, false) else o
    decreases |ids|
  {
    if ids != [] {
      assert RestoreWrites(a, ids)[1..] == RestoreWrites(a, ids[1..]);
      RestoreOnRow(RowStep(o, RestoreWrites(a, ids)[0], a, p), a, ids[1..], p);
    }
  }

  lemma {:induction false} DeleteOnRow(o: Option<RowView>, a: Uuid, ids: seq<string>, p: string)
    ensures RunRow(o, DeleteWrites(a, ids), a, p) == if p in ids then None else o
    decreases |ids|
  {
    if ids != [] {
      assert DeleteWrites(a, ids)[1..] == DeleteWrites(a, ids[1..]);
      DeleteOnRow(RowStep(o, DeleteWrites(a, ids)[0], a, p), a, ids[1..], p);
    }
  }

  /** The whole list of statements, in order, does to each message what `PassRow` says. */
  lemma PassOnRow(o: Option<RowView>, a: Uuid, page: SyncPage, results: seq<Hydrated>, now: int, p: string)
    ensures RunRow(o, PassWrites(a, page, results, now), a, p) == PassRow(o, page, results, p)
  {
    var saves, cursor := SaveWrites(a, results, now), CursorWrites(a, page, results, now);
    var trash, restore := TrashWrites(a, page.trashedIds, now), RestoreWrites(a, page.restoredIds);
    var delete := DeleteWrites(a, page.deletedIds);
    var o1 := SavedAll(o, results, p);
    SavesOnRow(o, a, results, now, p);
    TrashOnRow(o1, a, page.trashedIds, now, p);
    var o2 := RunRow(o1, trash, a, p);
    RestoreOnRow(o2, a, page.restoredIds, p);
    var o3 := RunRow(o2, restore, a, p);
    DeleteOnRow(o3, a, page.deletedIds, p);
    var o4 := RunRow(o3, delete, a, p);
    RunRowConcat(o1, trash, restore, a, p);
    RunRowConcat(o1, trash + restore, delete, a, p);
    RunRowConcat(o, saves, MarkWrites(a, page, now), a, p);
    RunRowConcat(o, ContentWrites(a, page, results, now), cursor, a, p);
    assert RunRow(o4, cursor, a, p) == o4;
  }

  // ---------------------------------------------------------------- disturbed rows

  /** An earlier answer that the clean pass confirms: same delivery time, and no snippet lost. */
  ghost predicate Confirmed(m: Incoming, clean: seq<Hydrated>) {
    && FirstAt(clean, m.messageId) == Some(m.receivedAt)
    && (m.snippet.Some? ==> AnySnippet(clean, m.messageId))
  }

  /** What an unfinished pass, or a classification between passes, may have executed. */
  ghost predicate Permitted(w: Write, a: Uuid, page: SyncPage, clean: seq<Hydrated>) {
    match w
    case SaveEmail(b, m, _) =>
      b == a && m.subject.Some? && m.sender.Some? && (Confirmed(m, clean) || m.messageId in page.deletedIds)
    case UpdateEmails(ByMessage(b, p), Trash(_)) => b == a && p in page.trashedIds
    case UpdateEmails(ByMessage(b, p), Untrash) => b == a && p in page.restoredIds
    case DeleteEmails(ByMessage(b, p)) => b == a && p in page.deletedIds
    case SaveClassification(_, _, _, _) => true
    case _ => false
  }

  function SnippetOf(o: Option<RowView>): Option<string> {
    if o.Some? then o.value.snippet else None
  }

  /** `q` is what permitted statements can have made of the row `o` of message `p`. */
  ghost predicate Disturbed(o: Option<RowView>, q: Option<RowView>, page: SyncPage, clean: seq<Hydrated>, p: string) {
    p in page.deletedIds || (
      && (o.Some? ==> q.Some?)
      && (SnippetOf(q) == SnippetOf(o) || AnySnippet(clean, p))
      && (q.Some? ==>
            && (o.None? ==> FirstAt(clean, p) == Some(q.value.receivedAt) && !q.value.viewed)
            && (o.Some? ==> q.value.receivedAt == o.value.receivedAt && q.value.viewed == o.value.viewed)
            && (q.value.trashed == (o.Some? && o.value.trashed) || p in page.trashedIds || p in page.restoredIds)
            && (o.Some? && FirstAt(clean, p).None? ==> q.value.(trashed := o.value.trashed) == o.value)))
  }

  lemma {:induction false} SnippetMeansAnswer(results: seq<Hydrated>, p: string)
    requires AnySnippet(results, p)
    ensures FirstAt(results, p).Some?
  {
    var i :| 0 <= i < |results| && Answers(results[i], p) && results[i].meta.snippet.Some?;
    var init := results[..|results| - 1];
    if i < |init| {
      assert init[i] == results[i];
      SnippetMeansAnswer(init, p);
    }
  }

  lemma StaysDisturbed(o: Option<RowView>, q: Option<RowView>, a: Uuid, page: SyncPage, clean: seq<Hydrated>, p: string,
                       w: Write)
    requires Disturbed(o, q, page, clean, p) && Permitted(w, a, page, clean)
    ensures Disturbed(o, RowStep(q, w, a, p), page, clean, p)
  {
  }

  lemma {:induction false} AllStayDisturbed(o: Option<RowView>, q: Option<RowView>, a: Uuid, page: SyncPage,
                                            clean: seq<Hydrated>, p: string, ws: seq<Write>)
    requires Disturbed(o, q, page, clean, p)
    requires forall w | w in ws :: Permitted(w, a, page, clean)
    ensures Disturbed(o, RunRow(q, ws, a, p), page, clean, p)
    decreases |ws|
  {
    if ws != [] {
      StaysDisturbed(o, q, a, page, clean, p, ws[0]);
      AllStayDisturbed(o, RowStep(q, ws[0], a, p), a, page, clean, p, ws[1..]);
    }
  }

  /** Rows that differ at most in the trash flag. */
  predicate SameButTrash(x: Option<RowView>, y: Option<RowView>) {
    && x.Some? == y.Some?
    && (x.Some? ==> x.value.(trashed := false) == y.value.(trashed := false))
  }

  function TrashOf(o: Option<RowView>): bool {
    o.Some? && o.value.trashed
  }

  lemma {:induction false} SavesKeepTrash(o: Option<RowView>, results: seq<Hydrated>, p: string)
    ensures TrashOf(SavedAll(o, results, p)) == TrashOf(o)
    ensures FirstAt(results, p).None? ==> SavedAll(o, results, p) == o
    ensures FirstAt(results, p).Some? ==> SavedAll(o, results, p).Some?
  {
    if results != [] {
      SavesKeepTrash(o, results[..|results| - 1], p);
    }
  }

  lemma {:induction false} SavesErase(o: Option<RowView>, q: Option<RowView>, results: seq<Hydrated>, p: string)
    requires FirstAt(results, p).Some?
    requires q.Some? ==> if o.None? then FirstAt(results, p) == Some(q.value.receivedAt) && !q.value.viewed
                         else q.value.receivedAt == o.value.receivedAt && q.value.viewed == o.value.viewed
    requires o.Some? ==> q.Some?
    ensures var x, y := SavedAll(o, results, p), SavedAll(q, results, p);
            && x.Some? && y.Some?
            && x.value.(trashed := false, snippet := None) == y.value.(trashed := false, snippet := None)
  {
    var init := results[..|results| - 1];
    SavesKeepTrash(o, init, p);
    SavesKeepTrash(q, init, p);
    if FirstAt(init, p).Some? {
      SavesErase(o, q, init, p);
    }
  }

  /** Saves leave the same snippet on two rows that had the same, and on any two rows once one brings a snippet. */
  lemma {:induction false} SavesSettleSnippet(o: Option<RowView>, q: Option<RowView>, results: seq<Hydrated>, p: string)
    requires SnippetOf(o) == SnippetOf(q) || AnySnippet(results, p)
    ensures SnippetOf(SavedAll(o, results, p)) == SnippetOf(SavedAll(q, results, p))
  {
    if results != [] {
      var init, last := results[..|results| - 1], results[|results| - 1];
      if !(Answers(last, p) && last.meta.snippet.Some?) {
        if AnySnippet(results, p) {
          var i :| 0 <= i < |results| && Answers(results[i], p) && results[i].meta.snippet.Some?;
          assert init[i] == results[i];
        }
        SavesSettleSnippet(o, q, init, p);
      }
    }
  }

  /** The clean pass wipes out every permitted disturbance. */
  lemma CleanPassRepairs(o: Option<RowView>, q: Option<RowView>, page: SyncPage, clean: seq<Hydrated>, p: string)
    requires Disturbed(o, q, page, clean, p)
    ensures PassRow(q, page, clean, p) == PassRow(o, page, clean, p)
  {
    SavesKeepTrash(o, clean, p);
    SavesKeepTrash(q, clean, p);
    if p !in page.deletedIds {
      if FirstAt(clean, p).Some? {
        SavesErase(o, q, clean, p);
        SavesSettleSnippet(o, q, clean, p);
      } else if AnySnippet(clean, p) {
        SnippetMeansAnswer(clean, p);
      }
      assert SameButTrash(SavedAll(o, clean, p), SavedAll(q, clean, p));
    }
  }

  /**
   * Exactly which earlier answers are harmless: whatever row was stored before, saving `m` and
   * then running the clean pass equals the clean pass alone if and only if the pass confirms `m`
   * (or deletes the message).
   */
  lemma EarlierSaveHarmlessIff(page: SyncPage, clean: seq<Hydrated>, m: Incoming)
    requires m.subject.Some? && m.sender.Some?
    ensures (forall o ::
               PassRow(Some(SavedRow(o, m)), page, clean, m.messageId) == PassRow(o, page, clean, m.messageId))
       <==> Confirmed(m, clean) || m.messageId in page.deletedIds
  {
    var p := m.messageId;
    if Confirmed(m, clean) || p in page.deletedIds {
      forall o ensures PassRow(Some(SavedRow(o, m)), page, clean, p) == PassRow(o, page, clean, p) {
        assert Disturbed(o, Some(SavedRow(o, m)), page, clean, p);
        CleanPassRepairs(o, Some(SavedRow(o, m)), page, clean, p);
      }
    } else {
      SavesKeepTrash(None, clean, p);
      SavesKeepTrash(Some(SavedRow(None, m)), clean, p);
      SavesFromNothing(clean, p);
      SavesOver(SavedRow(None, m), clean, p);
      assert PassRow(Some(SavedRow(None, m)), page, clean, p) != PassRow(None, page, clean, p);
    }
  }

  lemma {:induction false} SavesFromNothing(results: seq<Hydrated>, p: string)
    ensures var x := SavedAll(None, results, p);
            && (x.None? <==> FirstAt(results, p).None?)
            && (x.Some? ==> FirstAt(results, p) == Some(x.value.receivedAt))
            && (x.Some? && x.value.snippet.Some? ==> AnySnippet(results, p))
  {
    if results != [] {
      var init, last := results[..|results| - 1], results[|results| - 1];
      SavesFromNothing(init, p);
      if AnySnippet(init, p) {
        var i :| 0 <= i < |init| && Answers(init[i], p) && init[i].meta.snippet.Some?;
        assert results[i] == init[i];
      }
    }
  }

  lemma {:induction false} SavesOver(r: RowView, results: seq<Hydrated>, p: string)
    ensures var x := SavedAll(Some(r), results, p);
            x.Some? && x.value.receivedAt == r.receivedAt && (r.snippet.Some? ==> x.value.snippet.Some?)
  {
    if results != [] {
      SavesOver(r, results[..|results| - 1], p);
    }
  }

  // ---------------------------------------------------------------- whole stores

  lemma PassWritesArePassWrites(a: Uuid, page: SyncPage, results: seq<Hydrated>, now: int, w: Write)
    requires w in PassWrites(a, page, results, now)
    ensures IsPassWrite(w, a)
    ensures NotesAccount(w) ==> w in CursorWrites(a, page, results, now)
    ensures w in ContentWrites(a, page, results, now) ==> !NotesAccount(w)
  {
    if w in SaveWrites(a, results, now) {
      SaveWriteShape(a, results, now, w);
    } else if w in MarkWrites(a, page, now) {
      MarkWriteShape(a, page, now, w);
    }
  }

  /** Rows of other accounts never see a pass. */
  lemma {:induction false} OtherAccountsUntouched(o: Option<RowView>, ws: seq<Write>, a: Uuid, b: Uuid, p: string)
    requires a != b && forall w | w in ws :: IsPassWrite(w, a)
    ensures RunRow(o, ws, b, p) == o
    decreases |ws|
  {
    if ws != [] {
      assert IsPassWrite(ws[0], a) && RowStep(o, ws[0], b, p) == o;
      OtherAccountsUntouched(o, ws[1..], a, b, p);
    }
  }

  /**
   * Any sequence of permitted statements, in any order, followed by the clean pass gives every
   * message of every account the row that the clean pass alone gives it.
   */
  lemma PermittedThenClean(db: Db, a: Uuid, page: SyncPage, ws: seq<Write>, clean: seq<Hydrated>, now: int,
                           b: Uuid, p: string)
    requires WF(db) && a in db.accounts
    requires forall w | w in ws :: Permitted(w, a, page, clean) && IsPassWrite(w, a)
    ensures var pass := PassWrites(a, page, clean, now);
            Row(Run(Run(db, ws), pass), b, p) == Row(Run(db, pass), b, p)
    ensures Run(db, ws).accounts == db.accounts
  {
    var pass := PassWrites(a, page, clean, now);
    forall w | w in pass ensures IsPassWrite(w, a) {
      PassWritesArePassWrites(a, page, clean, now, w);
    }
    RowAfterRun(db, ws, a, b, p);
    RowAfterRun(Run(db, ws), pass, a, b, p);
    RowAfterRun(db, pass, a, b, p);
    var o := Row(db, b, p);
    if a == b {
      AllStayDisturbed(o, o, a, page, clean, p, ws);
      PassOnRow(o, a, page, clean, now, p);
      PassOnRow(RunRow(o, ws, a, p), a, page, clean, now, p);
      CleanPassRepairs(o, RunRow(o, ws, a, p), page, clean, p);
    } else {
      OtherAccountsUntouched(o, ws, a, b, p);
      OtherAccountsUntouched(o, pass, a, b, p);
    }
  }

  // ---------------------------------------------------------------- the cursor

  lemma {:induction false} NoCursorWrite(db: Db, a: Uuid, ws: seq<Write>)
    requires WF(db) && a in db.accounts
    requires forall w | w in ws :: IsPassWrite(w, a) && !NotesAccount(w)
    ensures Run(db, ws).accounts == db.accounts && WF(Run(db, ws))
    decreases |ws|
  {
    if ws != [] {
      AccountsAfterWrite(db, ws[0], a);
      ApplyOk(db, ws[0]);
      NoCursorWrite(Apply(db, ws[0]), a, ws[1..]);
    }
  }

  /**
   * However far a pass gets, the stored cursor changes exactly when the pass ran to its end and
   * no error held the cursor; then it is the cursor of the page, and the last error is cleared.
   */
  lemma CursorMovesOnlyOnCleanPass(db: Db, a: Uuid, page: SyncPage, results: seq<Hydrated>, now: int, done: nat)
    requires WF(db) && a in db.accounts
    requires done <= |PassWrites(a, page, results, now)|
    ensures var ws := PassWrites(a, page, results, now);
            var after := Run(db, ws[..done]);
            if done == |ws| && !AnyHolds(results)
            then after.accounts == db.accounts[a := db.accounts[a].Synced(page.nextCursor, now)]
            else after.accounts == db.accounts
  {
    var ws, content := PassWrites(a, page, results, now), ContentWrites(a, page, results, now);
    forall w | w in ws ensures IsPassWrite(w, a) {
      PassWritesArePassWrites(a, page, results, now, w);
    }
    forall w | w in content ensures w in ws && !NotesAccount(w) {
      PassWritesArePassWrites(a, page, results, now, w);
    }
    if done <= |content| {
      assert ws[..done] == content[..done];
      NoCursorWrite(db, a, content[..done]);
    } else {
      assert ws[..done] == content + [UpdateCursor(a, page.nextCursor, now)];
      RunConcat(db, content, [UpdateCursor(a, page.nextCursor, now)]);
      NoCursorWrite(db, a, content);
    }
  }

  // ---------------------------------------------------------------- messages passed over

  predicate AnyFailed(results: seq<Hydrated>) {
    exists i | 0 <= i < |results| :: results[i].Failed?
  }

  predicate AllReleased(results: seq<Hydrated>) {
    forall i | 0 <= i < |results| && results[i].Failed? :: IsNotFoundError(results[i].text)
  }

  predicate MovesCursor(ws: seq<Write>) {
    exists w | w in ws :: w.UpdateCursor?
  }

  /**
   * Exactly when the cursor passes over a message that was not answered: some answer failed, every
   * failed answer reads as "not found", and the pass ran to its end.
   */
  lemma CursorPassesFailuresIff(db: Db, a: Uuid, page: SyncPage, results: seq<Hydrated>, now: int, done: nat)
    requires WF(db) && a in db.accounts
    requires done <= |PassWrites(a, page, results, now)|
    ensures var ws := PassWrites(a, page, results, now);
            && (AnyFailed(results) && MovesCursor(ws[..done])
                <==> AnyFailed(results) && AllReleased(results) && done == |ws|)
            && var accounts := Run(db, ws[..done]).accounts;
               if MovesCursor(ws[..done]) then a in accounts && accounts[a].cursor == Some(page.nextCursor)
               else accounts == db.accounts
  {
    var ws, content := PassWrites(a, page, results, now), ContentWrites(a, page, results, now);
    CursorMovesOnlyOnCleanPass(db, a, page, results, now, done);
    ContentMovesNoCursor(a, page, results, now);
    assert AnyHolds(results) <==> !AllReleased(results);
    if done == |ws| && !AnyHolds(results) {
      assert ws[..done] == content + [UpdateCursor(a, page.nextCursor, now)];
      assert ws[|content|].UpdateCursor? && ws[|content|] in ws[..done];
    } else {
      assert forall i | 0 <= i < done :: ws[i] in content;
    }
  }

  lemma ContentMovesNoCursor(a: Uuid, page: SyncPage, results: seq<Hydrated>, now: int)
    ensures !MovesCursor(ContentWrites(a, page, results, now))
  {
    forall w | w in ContentWrites(a, page, results, now) ensures !w.UpdateCursor? {
      if w in SaveWrites(a, results, now) {
        SaveWriteShape(a, results, now, w);
      } else {
        MarkWriteShape(a, page, now, w);
      }
    }
  }

  /** The failed Gmail or Graph requests of a pass: request `i` was for `ids[i]` and failed with `errors[i]`. */
  ghost predicate FailedRequests(results: seq<Hydrated>, e: Endpoint, errors: seq<RequestError>, ids: seq<string>) {
    && (e == GmailEndpoint() || e == GraphEndpoint())
    && |errors| == |ids| == |results|
    && (forall i | 0 <= i < |results| && results[i].Failed? ::
          results[i].text == errors[i].Text(e, ids[i]) && !IsNotFoundError(errors[i].cause))
  }

  /**
   * For failed Gmail or Graph requests whose causes are not "not found" themselves, a finished pass moves
   * the cursor past the unanswered messages exactly when each of them quotes an identifier with a marker.
   */
  lemma FailedRequestsPassedOverIff(a: Uuid, page: SyncPage, results: seq<Hydrated>, now: int,
                                    e: Endpoint, errors: seq<RequestError>, ids: seq<string>)
    requires FailedRequests(results, e, errors, ids)
    ensures MovesCursor(PassWrites(a, page, results, now))
       <==> forall i | 0 <= i < |results| && results[i].Failed? :: errors[i].quotesAddress && IsNotFoundError(ids[i])
  {
    var ws := PassWrites(a, page, results, now);
    forall i | 0 <= i < |results| && results[i].Failed?
      ensures IsNotFoundError(results[i].text) <==> errors[i].quotesAddress && IsNotFoundError(ids[i])
    {
      AnyFailureHoldsIff(e, errors[i], ids[i]);
      assert HoldsCursor(results[i]) <==> HoldsCursor(Failed(errors[i].Text(e, ids[i])));
    }
    hide IsNotFoundError, RequestFailure, AddresslessFailure;
    ContentMovesNoCursor(a, page, results, now);
    assert AnyHolds(results) <==> !AllReleased(results);
    if !AnyHolds(results) {
      assert ws[|ws| - 1].UpdateCursor?;
    } else {
      assert ws == ContentWrites(a, page, results, now);
    }
  }

  /** One answer for every listed identifier, in any order: answer `i` is about message `ids[i]`. */
  ghost predicate OneAnswerEach(page: SyncPage, results: seq<Hydrated>, ids: seq<string>) {
    && |ids| == |results|
    && (forall p | p in page.newIds :: p in ids)
    && (forall i | 0 <= i < |results| && results[i].Ready? :: results[i].meta.id == ids[i])
  }

  /**
   * Whenever a pass has moved the cursor, every message its page lists has a row, or is deleted by the
   * page, or failed with a text that reads as "not found". Nothing else is passed over.
   */
  lemma MovedCursorAccountsForEach(db: Db, a: Uuid, page: SyncPage, results: seq<Hydrated>, now: int, done: nat,
                                   ids: seq<string>, p: string)
    requires WF(db) && a in db.accounts && OneAnswerEach(page, results, ids) && p in page.newIds
    requires done <= |PassWrites(a, page, results, now)| && MovesCursor(PassWrites(a, page, results, now)[..done])
    ensures || Row(Run(db, PassWrites(a, page, results, now)[..done]), a, p).Some?
            || p in page.deletedIds
            || exists i | 0 <= i < |results| :: ids[i] == p && results[i].Failed? && IsNotFoundError(results[i].text)
  {
    var ws := PassWrites(a, page, results, now);
    MovedMeansComplete(a, page, results, now, done);
    assert ws[..done] == ws;
    var i :| 0 <= i < |ids| && ids[i] == p;
    hide PassWrites, IsNotFoundError;
    if results[i].Ready? && p !in page.deletedIds {
      forall w | w in ws ensures IsPassWrite(w, a) {
        PassWritesArePassWrites(a, page, results, now, w);
      }
      RowAfterRun(db, ws, a, a, p);
      PassOnRow(Row(db, a, p), a, page, results, now, p);
      AnsweredIsFound(results, i);
      SavesKeepTrash(Row(db, a, p), results, p);
    }
  }

  lemma MovedMeansComplete(a: Uuid, page: SyncPage, results: seq<Hydrated>, now: int, done: nat)
    requires done <= |PassWrites(a, page, results, now)| && MovesCursor(PassWrites(a, page, results, now)[..done])
    ensures done == |PassWrites(a, page, results, now)| && AllReleased(results)
  {
    var ws, content := PassWrites(a, page, results, now), ContentWrites(a, page, results, now);
    ContentMovesNoCursor(a, page, results, now);
    var w :| w in ws[..done] && w.UpdateCursor?;
    var k :| 0 <= k < done && ws[k] == w;
    PassWritesArePassWrites(a, page, results, now, w);
    assert k >= |content|;
    assert !AnyHolds(results);
    assert forall i | 0 <= i < |results| && results[i].Failed? :: !HoldsCursor(results[i]);
  }

  lemma {:induction false} AnsweredIsFound(results: seq<Hydrated>, i: nat)
    requires i < |results| && results[i].Ready?
    ensures FirstAt(results, results[i].meta.id).Some?
  {
    var init := results[..|results| - 1];
    if i < |init| {
      assert init[i] == results[i];
      AnsweredIsFound(init, i);
    }
  }

  /**
   * For Gmail and Graph, when no cause is "not found" itself: a moved cursor has passed over exactly
   * messages whose own identifier contains a marker; all others have a row or are deleted by the page.
   */
  lemma OnlyMarkedIdentifiersArePassedOver(db: Db, a: Uuid, page: SyncPage, results: seq<Hydrated>, now: int,
                                           e: Endpoint, errors: seq<RequestError>, ids: seq<string>, p: string)
    requires WF(db) && a in db.accounts && FailedRequests(results, e, errors, ids)
    requires OneAnswerEach(page, results, ids) && p in page.newIds
    requires MovesCursor(PassWrites(a, page, results, now))
    ensures || Row(Run(db, PassWrites(a, page, results, now)), a, p).Some?
            || p in page.deletedIds
            || IsNotFoundError(p)
  {
    var ws := PassWrites(a, page, results, now);
    assert ws[..|ws|] == ws;
    FailedRequestsPassedOverIff(a, page, results, now, e, errors, ids);
    MovedCursorAccountsForEach(db, a, page, results, now, |ws|, ids, p);
  }
}
