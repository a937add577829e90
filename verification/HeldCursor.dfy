/**
 * Passes that left the cursor where it was, followed by a clean pass. Exactly which statements the
 * earlier passes may have executed so that the clean pass gives the rows it would have given alone.
 */
module HeldCursor {
  import opened Prelude
  import opened Store
  import opened SyncEngine
  import opened Replay

  // ---------------------------------------------------------------- what was executed for one message

  predicate SavesIt(w: Write, a: Uuid, p: string) {
    w.SaveEmail? && w.account == a && w.incoming.messageId == p
  }

  predicate MarksIt(w: Write, a: Uuid, p: string) {
    w.UpdateEmails? && w.sel == ByMessage(a, p) && (w.change.Trash? || w.change.Untrash?)
  }

  predicate DeletesIt(w: Write, a: Uuid, p: string) {
    w.DeleteEmails? && w.sel == ByMessage(a, p)
  }

  predicate Deleted(ws: seq<Write>, a: Uuid, p: string) {
    exists w | w in ws :: DeletesIt(w, a, p)
  }

  /** The delivery time of the first save of the message. */
  function FirstSave(ws: seq<Write>, a: Uuid, p: string): Option<int> {
    if ws == [] then None
    else
      var earlier, w := FirstSave(ws[..|ws| - 1], a, p), ws[|ws| - 1];
      if earlier.None? && SavesIt(w, a, p) then Some(w.incoming.receivedAt) else earlier
  }

  /** The trash flag its last mark sets. */
  function LastMark(ws: seq<Write>, a: Uuid, p: string): Option<bool> {
    if ws == [] then None
    else
      var w := ws[|ws| - 1];
      if MarksIt(w, a, p) then Some(w.change.Trash?) else LastMark(ws[..|ws| - 1], a, p)
  }

  predicate SnippetSaved(ws: seq<Write>, a: Uuid, p: string) {
    exists w | w in ws :: SavesIt(w, a, p) && w.incoming.snippet.Some?
  }

  lemma RunRowPush(o: Option<RowView>, ws: seq<Write>, a: Uuid, p: string)
    requires ws != []
    ensures RunRow(o, ws, a, p) == RowStep(RunRow(o, ws[..|ws| - 1], a, p), ws[|ws| - 1], a, p)
  {
    var init, w := ws[..|ws| - 1], ws[|ws| - 1];
    assert ws == init + [w] && [w][1..] == [];
    RunRowConcat(o, init, [w], a, p);
  }

  lemma InInit(ws: seq<Write>, w: Write)
    requires ws != []
    ensures w in ws <==> w in ws[..|ws| - 1] || w == ws[|ws| - 1]
  {
  }

  /** What statements without a deletion make of a row, in terms of the first save, last mark and snippets. */
  ghost predicate Shape(o: Option<RowView>, q: Option<RowView>, first: Option<int>, mark: Option<bool>, snippet: bool) {
    && (o.Some? ==> q.Some? && q.value.receivedAt == o.value.receivedAt && q.value.viewed == o.value.viewed)
    && (o.None? ==> (q.Some? <==> first.Some?))
    && (o.None? && q.Some? ==> first == Some(q.value.receivedAt) && !q.value.viewed)
    && (mark.None? ==> TrashOf(q) == TrashOf(o))
    && (o.Some? && mark.Some? ==> TrashOf(q) == mark.value)
    && (if snippet then SnippetOf(q).Some? else SnippetOf(q) == SnippetOf(o))
    && (o.Some? && first.None? ==> q.value.(trashed := o.value.trashed) == o.value)
  }

  ghost predicate ShapedBy(o: Option<RowView>, q: Option<RowView>, ws: seq<Write>, a: Uuid, p: string) {
    Shape(o, q, FirstSave(ws, a, p), LastMark(ws, a, p), SnippetSaved(ws, a, p))
  }

  lemma {:induction false} StatementsShape(o: Option<RowView>, ws: seq<Write>, a: Uuid, p: string)
    requires !Deleted(ws, a, p)
    ensures ShapedBy(o, RunRow(o, ws, a, p), ws, a, p)
  {
    if ws != [] {
      var init, w := ws[..|ws| - 1], ws[|ws| - 1];
      assert w in ws && forall x | x in init :: x in ws;
      StatementsShape(o, init, a, p);
      RunRowPush(o, ws, a, p);
      SnippetSavedPush(ws, a, p);
      hide RunRow, SnippetSaved, Deleted;
      if SavesIt(w, a, p) {
        SaveShape(o, RunRow(o, init, a, p), FirstSave(init, a, p), LastMark(init, a, p), SnippetSaved(init, a, p),
                  w.incoming);
      } else if MarksIt(w, a, p) {
        MarkShape(o, RunRow(o, init, a, p), FirstSave(init, a, p), LastMark(init, a, p), SnippetSaved(init, a, p),
                  w.change.Trash?);
      } else {
        OtherStatement(RunRow(o, init, a, p), w, a, p);
      }
    }
  }

  lemma SnippetSavedPush(ws: seq<Write>, a: Uuid, p: string)
    requires ws != []
    ensures var w := ws[|ws| - 1];
            SnippetSaved(ws, a, p)
            <==> SnippetSaved(ws[..|ws| - 1], a, p) || (SavesIt(w, a, p) && w.incoming.snippet.Some?)
  {
    forall x ensures x in ws <==> x in ws[..|ws| - 1] || x == ws[|ws| - 1] {
      InInit(ws, x);
    }
  }

  lemma SaveShape(o: Option<RowView>, q: Option<RowView>, first: Option<int>, mark: Option<bool>, snippet: bool,
                  m: Incoming)
    requires Shape(o, q, first, mark, snippet)
    ensures Shape(o, Some(SavedRow(q, m)), if first.Some? then first else Some(m.receivedAt), mark,
                  snippet || m.snippet.Some?)
  {
  }

  lemma MarkShape(o: Option<RowView>, q: Option<RowView>, first: Option<int>, mark: Option<bool>, snippet: bool,
                  trashed: bool)
    requires Shape(o, q, first, mark, snippet)
    ensures Shape(o, Flagged(q, trashed), first, Some(trashed), snippet)
  {
  }

  lemma OtherStatement(q: Option<RowView>, w: Write, a: Uuid, p: string)
    requires !SavesIt(w, a, p) && !MarksIt(w, a, p) && !DeletesIt(w, a, p)
    ensures RowStep(q, w, a, p) == q
  {
  }

  /** Once deleted, a row comes back unseen or not at all. */
  lemma {:induction false} DeletedShape(o: Option<RowView>, ws: seq<Write>, a: Uuid, p: string)
    requires Deleted(ws, a, p)
    ensures var q := RunRow(o, ws, a, p); q.Some? ==> !q.value.viewed
  {
    var init, w := ws[..|ws| - 1], ws[|ws| - 1];
    RunRowPush(o, ws, a, p);
    if !DeletesIt(w, a, p) {
      var x :| x in ws && DeletesIt(x, a, p);
      InInit(ws, x);
      DeletedShape(o, init, a, p);
    }
  }

  // ---------------------------------------------------------------- exactly when it is repaired

  /**
   * Statements that the clean pass makes up for: the page deletes the message, or nothing deleted it, the
   * page marks it if it was marked, and the answers repeat the first delivery time and bring a snippet if
   * one was saved.
   */
  predicate Harmless(ws: seq<Write>, a: Uuid, page: SyncPage, clean: seq<Hydrated>, p: string) {
    p in page.deletedIds || (
      && !Deleted(ws, a, p)
      && (LastMark(ws, a, p).Some? ==> p in page.trashedIds || p in page.restoredIds)
      && (FirstSave(ws, a, p).Some? ==> FirstAt(clean, p) == FirstSave(ws, a, p))
      && (SnippetSaved(ws, a, p) ==> AnySnippet(clean, p)))
  }

  ghost predicate Repaired(ws: seq<Write>, a: Uuid, page: SyncPage, clean: seq<Hydrated>, p: string) {
    forall o :: PassRow(RunRow(o, ws, a, p), page, clean, p) == PassRow(o, page, clean, p)
  }

  /** The clean pass repairs the executed statements on every row if and only if they are harmless. */
  lemma RepairedIff(ws: seq<Write>, a: Uuid, page: SyncPage, clean: seq<Hydrated>, p: string)
    ensures Repaired(ws, a, page, clean, p) <==> Harmless(ws, a, page, clean, p)
  {
    if Harmless(ws, a, page, clean, p) {
      forall o ensures PassRow(RunRow(o, ws, a, p), page, clean, p) == PassRow(o, page, clean, p) {
        HarmlessIsRepaired(o, ws, a, page, clean, p);
      }
    } else if Deleted(ws, a, p) {
      DeletionShows(ws, a, page, clean, p);
    } else if LastMark(ws, a, p).Some? && p !in page.trashedIds && p !in page.restoredIds {
      MarkShows(ws, a, page, clean, p);
    } else {
      SaveShows(ws, a, page, clean, p);
    }
  }

  lemma HarmlessIsRepaired(o: Option<RowView>, ws: seq<Write>, a: Uuid, page: SyncPage, clean: seq<Hydrated>,
                           p: string)
    requires Harmless(ws, a, page, clean, p)
    ensures PassRow(RunRow(o, ws, a, p), page, clean, p) == PassRow(o, page, clean, p)
  {
    var q := RunRow(o, ws, a, p);
    if p !in page.deletedIds {
      StatementsShape(o, ws, a, p);
      hide RunRow, FirstSave, LastMark, SnippetSaved, Deleted;
      assert Disturbed(o, q, page, clean, p);
      CleanPassRepairs(o, q, page, clean, p);
    }
  }

  const SEEN := RowView(None, None, 0, false, true, false, None)

  /** A deletion the page does not repeat loses the "viewed" mark. */
  lemma DeletionShows(ws: seq<Write>, a: Uuid, page: SyncPage, clean: seq<Hydrated>, p: string)
    requires Deleted(ws, a, p) && p !in page.deletedIds
    ensures !Repaired(ws, a, page, clean, p)
  {
    var o := Some(SEEN);
    var q := RunRow(o, ws, a, p);
    DeletedShape(o, ws, a, p);
    SavesKeepViewed(o, clean, p);
    SavesKeepViewed(q, clean, p);
    assert PassRow(q, page, clean, p) != PassRow(o, page, clean, p);
  }

  lemma {:induction false} SavesKeepViewed(o: Option<RowView>, results: seq<Hydrated>, p: string)
    ensures var x := SavedAll(o, results, p);
            && (o.Some? ==> x.Some?)
            && (x.Some? ==> x.value.viewed == (o.Some? && o.value.viewed))
  {
    if results != [] {
      SavesKeepViewed(o, results[..|results| - 1], p);
    }
  }

  /** A mark the page does not repeat stays visible on a row with the other flag. */
  lemma MarkShows(ws: seq<Write>, a: Uuid, page: SyncPage, clean: seq<Hydrated>, p: string)
    requires !Deleted(ws, a, p) && LastMark(ws, a, p).Some?
    requires p !in page.trashedIds && p !in page.restoredIds && p !in page.deletedIds
    ensures !Repaired(ws, a, page, clean, p)
  {
    var o := Some(SEEN.(trashed := !LastMark(ws, a, p).value));
    var q := RunRow(o, ws, a, p);
    StatementsShape(o, ws, a, p);
    SavesKeepTrash(o, clean, p);
    SavesKeepTrash(q, clean, p);
    SavesKeepViewed(o, clean, p);
    assert PassRow(q, page, clean, p) != PassRow(o, page, clean, p);
  }

  /** A save the answers do not confirm stays visible where there was no row. */
  lemma SaveShows(ws: seq<Write>, a: Uuid, page: SyncPage, clean: seq<Hydrated>, p: string)
    requires !Deleted(ws, a, p) && p !in page.deletedIds
    requires (FirstSave(ws, a, p).Some? && FirstAt(clean, p) != FirstSave(ws, a, p))
          || (SnippetSaved(ws, a, p) && !AnySnippet(clean, p))
    ensures !Repaired(ws, a, page, clean, p)
  {
    var q := RunRow(None, ws, a, p);
    StatementsShape(None, ws, a, p);
    SavesFromNothing(clean, p);
    hide RunRow, FirstSave, LastMark, SnippetSaved, Deleted;
    SavesOver(q.value, clean, p);
    assert PassRow(q, page, clean, p) != PassRow(None, page, clean, p);
  }

  // ---------------------------------------------------------------- whole stores

  lemma RowsAfterBoth(db: Db, a: Uuid, ws: seq<Write>, page: SyncPage, clean: seq<Hydrated>, now: int, p: string)
    requires WF(db) && a in db.accounts && forall w | w in ws :: IsPassWrite(w, a)
    ensures var pass, o := PassWrites(a, page, clean, now), Row(db, a, p);
            && Row(Run(Run(db, ws), pass), a, p) == PassRow(RunRow(o, ws, a, p), page, clean, p)
            && Row(Run(db, pass), a, p) == PassRow(o, page, clean, p)
  {
    var pass, o := PassWrites(a, page, clean, now), Row(db, a, p);
    forall w | w in pass ensures IsPassWrite(w, a) {
      PassWritesArePassWrites(a, page, clean, now, w);
    }
    hide PassWrites, IsPassWrite, WF, Row;
    RowAfterRun(db, ws, a, a, p);
    RowAfterRun(Run(db, ws), pass, a, a, p);
    RowAfterRun(db, pass, a, a, p);
    PassOnRow(o, a, page, clean, now, p);
    PassOnRow(RunRow(o, ws, a, p), a, page, clean, now, p);
  }

  /**
   * For any statements of earlier passes: from every well-formed store, running them and then the clean
   * pass gives the message the row of the clean pass alone, if and only if they are harmless for it.
   */
  lemma ReplayIsSafeIff(a: Uuid, ws: seq<Write>, page: SyncPage, clean: seq<Hydrated>, now: int, p: string)
    requires forall w | w in ws :: IsPassWrite(w, a)
    ensures var pass := PassWrites(a, page, clean, now);
            SameInEveryStore(a, ws + pass, pass, p) <==> Harmless(ws, a, page, clean, p)
  {
    var pass := PassWrites(a, page, clean, now);
    RepairedIff(ws, a, page, clean, p);
    hide PassWrites, Harmless, PassRow, RunRow, IsPassWrite;
    if Harmless(ws, a, page, clean, p) {
      forall db | WF(db) && a in db.accounts ensures Row(Run(db, ws + pass), a, p) == Row(Run(db, pass), a, p) {
        RunConcat(db, ws, pass);
        RowsAfterBoth(db, a, ws, page, clean, now, p);
      }
    } else {
      var o :| PassRow(RunRow(o, ws, a, p), page, clean, p) != PassRow(o, page, clean, p);
      StoreWithHasRow(a, p, o);
      RunConcat(StoreWith(a, p, o), ws, pass);
      RowsAfterBoth(StoreWith(a, p, o), a, ws, page, clean, now, p);
    }
  }

  // ---------------------------------------------------------------- failed passes

  /**
   * A pass over its own page that did not reach its cursor update: it may have cleared an expired cursor
   * (twice if it discovered twice), executed `done` of its other statements, saved matches
   * for what it classified, and recorded its error.
   */
  datatype Attempt = Attempt(
    page: SyncPage,
    results: seq<Hydrated>,
    now: int,
    done: nat,
    cleared: nat,
    matches: seq<Match>,
    error: Option<string>)

  function ContentRan(a: Uuid, t: Attempt): seq<Write> {
    var ws := ContentWrites(a, t.page, t.results, t.now);
    ws[..Min(t.done, |ws|)]
  }

  function Clearings(a: Uuid, n: nat): seq<Write> {
    seq(n, i => ClearCursor(a))
  }

  function AttemptWrites(a: Uuid, t: Attempt): seq<Write> {
    Clearings(a, t.cleared)
    + ContentRan(a, t)
    + MatchWrites(t.matches, t.now)
    + (if t.error.Some? then [SetSyncError(a, t.error.value)] else [])
  }

  function AllAttempts(a: Uuid, ts: seq<Attempt>): seq<Write> {
    if ts == [] then [] else AttemptWrites(a, ts[0]) + AllAttempts(a, ts[1..])
  }

  predicate ContentOrNote(w: Write, a: Uuid) {
    IsPassWrite(w, a) && !w.UpdateCursor?
  }

  lemma {:induction false} AttemptsAreContent(a: Uuid, ts: seq<Attempt>, w: Write)
    requires w in AllAttempts(a, ts)
    ensures ContentOrNote(w, a)
  {
    var t := ts[0];
    if w in ContentRan(a, t) {
      assert w in ContentWrites(a, t.page, t.results, t.now);
      PassWritesArePassWrites(a, t.page, t.results, t.now, w);
    } else if w in AttemptWrites(a, t) {
    } else {
      AttemptsAreContent(a, ts[1..], w);
    }
  }

  /** Failed passes leave the account row alone but for the last error and a cleared cursor. */
  ghost predicate Noted(before: map<Uuid, Account>, after: map<Uuid, Account>, a: Uuid) {
    && a in before && after.Keys == before.Keys
    && (forall b | b in before && b != a :: after[b] == before[b])
    && after[a].(lastError := before[a].lastError, cursor := before[a].cursor) == before[a]
    && (after[a].cursor == before[a].cursor || after[a].cursor == None)
  }

  lemma {:induction false} ContentOnlyNotes(db: Db, a: Uuid, ws: seq<Write>)
    requires WF(db) && a in db.accounts && forall w | w in ws :: ContentOrNote(w, a)
    ensures Noted(db.accounts, Run(db, ws).accounts, a) && WF(Run(db, ws))
    decreases |ws|
  {
    if ws != [] {
      ApplyOk(db, ws[0]);
      OneNote(db, a, ws[0]);
      ContentOnlyNotes(Apply(db, ws[0]), a, ws[1..]);
    }
  }

  lemma OneNote(db: Db, a: Uuid, w: Write)
    requires a in db.accounts && ContentOrNote(w, a)
    ensures Noted(db.accounts, Apply(db, w).accounts, a)
  {
    AccountsAfterWrite(db, w, a);
  }

  /**
   * Any number of failed passes, each over the page it discovered, followed by one clean pass. A message
   * of another account, and every message for which the executed statements are harmless, ends with the
   * row of the clean pass alone.
   */
  lemma HeldCursorReplayIsSafe(db: Db, a: Uuid, ts: seq<Attempt>, page: SyncPage, clean: seq<Hydrated>, now: int,
                               b: Uuid, p: string)
    requires WF(db) && a in db.accounts
    requires b == a ==> Harmless(AllAttempts(a, ts), a, page, clean, p)
    ensures var ws, pass := AllAttempts(a, ts), PassWrites(a, page, clean, now);
            Row(Run(db, ws + pass), b, p) == Row(Run(db, pass), b, p)
  {
    var ws, pass := AllAttempts(a, ts), PassWrites(a, page, clean, now);
    forall w | w in ws ensures IsPassWrite(w, a) {
      AttemptsAreContent(a, ts, w);
    }
    forall w | w in pass ensures IsPassWrite(w, a) {
      PassWritesArePassWrites(a, page, clean, now, w);
    }
    hide AllAttempts, PassWrites, IsPassWrite, Harmless;
    if a == b {
      ReplayIsSafeIff(a, ws, page, clean, now, p);
    } else {
      RowAfterRun(db, ws + pass, a, b, p);
      RowAfterRun(db, pass, a, b, p);
      OtherAccountsUntouched(Row(db, b, p), ws + pass, a, b, p);
      OtherAccountsUntouched(Row(db, b, p), pass, a, b, p);
    }
  }

  /** The failed passes only note things on the account row; once the cursor moves the account rows agree. */
  lemma HeldCursorReplayAccounts(db: Db, a: Uuid, ts: seq<Attempt>, page: SyncPage, clean: seq<Hydrated>, now: int)
    requires WF(db) && a in db.accounts
    ensures var ws, pass := AllAttempts(a, ts), PassWrites(a, page, clean, now);
            && Noted(db.accounts, Run(db, ws).accounts, a)
            && (!AnyHolds(clean) ==> Run(db, ws + pass).accounts == Run(db, pass).accounts)
  {
    var ws, pass := AllAttempts(a, ts), PassWrites(a, page, clean, now);
    forall w | w in ws ensures ContentOrNote(w, a) {
      AttemptsAreContent(a, ts, w);
    }
    ContentOnlyNotes(db, a, ws);
    SameAccountsAfterPass(db, Run(db, ws), a, page, clean, now);
    RunConcat(db, ws, pass);
  }

  lemma SameAccountsAfterPass(db: Db, mid: Db, a: Uuid, page: SyncPage, clean: seq<Hydrated>, now: int)
    requires WF(db) && WF(mid) && Noted(db.accounts, mid.accounts, a)
    ensures var pass := PassWrites(a, page, clean, now);
            !AnyHolds(clean) ==> Run(mid, pass).accounts == Run(db, pass).accounts
  {
    var pass := PassWrites(a, page, clean, now);
    CursorMovesOnlyOnCleanPass(db, a, page, clean, now, |pass|);
    CursorMovesOnlyOnCleanPass(mid, a, page, clean, now, |pass|);
    hide WF, PassWrites, Run;
    assert pass[..|pass|] == pass;
    assert db.accounts[a].Synced(page.nextCursor, now) == mid.accounts[a].Synced(page.nextCursor, now);
  }

  // ---------------------------------------------------------------- a sufficient condition

  /** A rediscovered window has grown: what an earlier page marked, the clean page marks as well. */
  ghost predicate Within(early: SyncPage, page: SyncPage) {
    && (forall p | p in early.trashedIds :: p in page.trashedIds)
    && (forall p | p in early.restoredIds :: p in page.restoredIds)
    && (forall p | p in early.deletedIds :: p in page.deletedIds)
  }

  /** An earlier page is within the clean one, which confirms what was answered or deletes the message. */
  ghost predicate AttemptConfirmed(t: Attempt, page: SyncPage, clean: seq<Hydrated>) {
    && Within(t.page, page)
    && (forall j | 0 <= j < |t.results| && t.results[j].Ready? ::
          Confirmed(t.results[j].meta.ToIncoming(), clean) || t.results[j].meta.id in page.deletedIds)
  }

  ghost predicate AllConfirmed(ts: seq<Attempt>, page: SyncPage, clean: seq<Hydrated>) {
    forall i | 0 <= i < |ts| :: AttemptConfirmed(ts[i], page, clean)
  }

  lemma {:induction false} AttemptsArePermitted(a: Uuid, page: SyncPage, ts: seq<Attempt>, clean: seq<Hydrated>,
                                                w: Write)
    requires AllConfirmed(ts, page, clean) && w in AllAttempts(a, ts)
    ensures Permitted(w, a, page, clean) || NotesAccount(w)
  {
    var t := ts[0];
    if w in ContentRan(a, t) {
      assert AttemptConfirmed(t, page, clean);
      if w in SaveWrites(a, t.results, t.now) {
        SaveWriteShape(a, t.results, t.now, w);
      } else {
        MarkWriteShape(a, t.page, t.now, w);
      }
    } else if w in AttemptWrites(a, t) {
    } else {
      assert forall i | 0 <= i < |ts[1..]| :: ts[1..][i] == ts[i + 1];
      AttemptsArePermitted(a, page, ts[1..], clean, w);
    }
  }

  /** Confirmed attempts are harmless for every message. */
  lemma ConfirmedAttemptsAreHarmless(a: Uuid, ts: seq<Attempt>, page: SyncPage, clean: seq<Hydrated>, p: string)
    requires AllConfirmed(ts, page, clean)
    ensures Harmless(AllAttempts(a, ts), a, page, clean, p)
  {
    var ws := AllAttempts(a, ts);
    forall w | w in ws ensures Permitted(w, a, page, clean) || NotesAccount(w) {
      AttemptsArePermitted(a, page, ts, clean, w);
    }
    forall w | w in ws ensures PermittedHere(w, a, page, clean, p) {
      PermittedMeans(w, a, page, clean, p);
    }
    SavedAndMarked(ws, a, p);
    hide AllAttempts, AllConfirmed, Permitted, FirstSave, LastMark, SavesIt, MarksIt, DeletesIt, AnySnippet;
  }

  /** A permitted statement, seen from one message. */
  ghost predicate PermittedHere(w: Write, a: Uuid, page: SyncPage, clean: seq<Hydrated>, p: string) {
    p in page.deletedIds || (
      && !DeletesIt(w, a, p)
      && (MarksIt(w, a, p) ==> p in page.trashedIds || p in page.restoredIds)
      && (SavesIt(w, a, p) ==> FirstAt(clean, p) == Some(w.incoming.receivedAt))
      && (SavesIt(w, a, p) && w.incoming.snippet.Some? ==> AnySnippet(clean, p)))
  }

  lemma PermittedMeans(w: Write, a: Uuid, page: SyncPage, clean: seq<Hydrated>, p: string)
    requires Permitted(w, a, page, clean) || NotesAccount(w)
    ensures PermittedHere(w, a, page, clean, p)
  {
  }

  lemma {:induction false} SavedAndMarked(ws: seq<Write>, a: Uuid, p: string)
    ensures FirstSave(ws, a, p).Some? ==>
              exists w | w in ws :: SavesIt(w, a, p) && w.incoming.receivedAt == FirstSave(ws, a, p).value
    ensures LastMark(ws, a, p).Some? ==> exists w | w in ws :: MarksIt(w, a, p)
  {
    if ws != [] {
      var init, w := ws[..|ws| - 1], ws[|ws| - 1];
      assert w in ws && forall x | x in init :: x in ws;
      SavedAndMarked(init, a, p);
    }
  }

  // ---------------------------------------------------------------- an input that is not repaired

  /** A message whose answer names no date: each hydration takes the time at which it runs. */
  function Undated(at: int): seq<Hydrated> {
    [Ready(Metadata("m", "(no subject)", "(no sender)", at, false, None))]
  }

  function NewMessage(next: string): SyncPage {
    SyncPage(["m"], [], [], [], next)
  }

  /**
   * It keeps the time of the pass that failed: that pass saved it and stopped, and the clean pass leaves the
   * first time where the clean pass alone stores its own.
   */
  lemma UndatedMessageKeepsItsFirstTime(db: Db, a: Uuid, next: string, early: int, late: int)
    requires WF(db) && a in db.accounts && Row(db, a, "m") == None
    ensures var failed := Attempt(NewMessage(next), Undated(early), early, 1, 0, [], None);
            var pass := PassWrites(a, NewMessage(next), Undated(late), late);
            var both := Row(Run(Run(db, AllAttempts(a, [failed])), pass), a, "m");
            var alone := Row(Run(db, pass), a, "m");
            both.Some? && alone.Some? && both.value.receivedAt == early && alone.value.receivedAt == late
  {
    var failed := Attempt(NewMessage(next), Undated(early), early, 1, 0, [], None);
    var ws := AllAttempts(a, [failed]);
    var save := SaveEmail(a, Undated(early)[0].meta.ToIncoming(), early);
    OneSave(a, next, early);
    assert [failed][1..] == [];
    assert AllAttempts(a, []) == [];
    assert ws == [save];
    RowsAfterBoth(db, a, ws, NewMessage(next), Undated(late), late, "m");
    assert [save][1..] == [];
    assert RunRow(None, [save], a, "m") == RunRow(RowStep(None, save, a, "m"), [], a, "m");
    OneAnswer(late);
  }

  lemma OneSave(a: Uuid, next: string, at: int)
    ensures ContentWrites(a, NewMessage(next), Undated(at), at)
         == [SaveEmail(a, Undated(at)[0].meta.ToIncoming(), at)]
  {
    assert Undated(at)[..0] == [];
    assert SaveWrites(a, [], at) == [];
    assert MarkWrites(a, NewMessage(next), at) == [];
  }

  lemma OneAnswer(at: int)
    ensures forall o: Option<RowView> ::
              SavedAll(o, Undated(at), "m") == Some(SavedRow(o, Undated(at)[0].meta.ToIncoming()))
  {
    assert Undated(at)[..0] == [];
  }
}
