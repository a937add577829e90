/**
 * What each statement writes and what it leaves alone, table by table and column by column, and what follows for
 * statements that come after one another.
 */
module Statements {
  import opened Prelude
  import opened Store
  import opened StorageHandle

  // ---------------------------------------------------------------- accounts

  /** All tables but the accounts, and the identifiers. */
  predicate OnlyAccounts(db: Db, after: Db) {
    after == db.(accounts := after.accounts, nextId := after.nextId)
  }

  /** A new account has the given provider, address and time and has never synced; a taken address changes nothing. */
  lemma InsertedAccount(db: Db, provider: Provider, address: string, now: int)
    requires WF(db)
    ensures var after := Apply(db, InsertAccount(provider, address, now));
            && OnlyAccounts(db, after)
            && if exists a | a in db.accounts :: db.accounts[a].address == address then after == db
               else
                 && after.accounts.Keys == db.accounts.Keys + {db.nextId} && db.nextId !in db.accounts
                 && after.accounts[db.nextId] == Account(provider, address, None, None, None, now)
                 && after.nextId == db.nextId + 1
                 && forall a | a in db.accounts :: after.accounts[a] == db.accounts[a]
  {
    hide IdsBelow;
    IsNew(db);
  }

  lemma IsNew(db: Db)
    requires WF(db)
    ensures db.nextId !in db.accounts && db.nextId !in db.criteria
    ensures db.nextId !in db.emails && db.nextId !in db.classifications
  {
  }

  /** Unlinking takes the account, exactly its emails, and exactly the classifications of these. */
  lemma DeletedAccount(db: Db, a: Uuid)
    requires WF(db)
    ensures var after := Apply(db, Write.DeleteAccount(a));
            && after.criteria == db.criteria && after.nextId == db.nextId
            && (forall b :: b in after.accounts <==> b in db.accounts && b != a)
            && (forall b | b in after.accounts :: after.accounts[b] == db.accounts[b])
            && (forall id :: id in after.emails <==> id in db.emails && db.emails[id].account != a)
            && (forall id | id in after.emails :: after.emails[id] == db.emails[id])
            && (forall c :: c in after.classifications
                  <==> c in db.classifications && db.emails[db.classifications[c].email].account != a)
            && (forall c | c in after.classifications :: after.classifications[c] == db.classifications[c])
  {
    assert MatchesLinked(db);
  }

  /** The three statements on an account row: each writes its own columns of that row and nothing else. */
  lemma AccountStatements(db: Db, a: Uuid, text: string, now: int)
    requires a in db.accounts
    ensures var row := db.accounts[a];
            && Apply(db, Write.SetSyncError(a, text))
               == db.(accounts := db.accounts[a := row.(lastError := Some(text))])
            && Apply(db, ClearCursor(a)) == db.(accounts := db.accounts[a := row.(cursor := None)])
            && Apply(db, UpdateCursor(a, text, now))
               == db.(accounts := db.accounts[a := row.(cursor := Some(text), lastSyncedAt := Some(now),
                                                        lastError := None)])
  {
  }

  /** A synced pass clears the error of the pass before it, and an error keeps the cursor. */
  lemma ErrorThenSync(db: Db, a: Uuid, text: string, cursor: string, now: int)
    requires a in db.accounts
    ensures Apply(Apply(db, Write.SetSyncError(a, text)), UpdateCursor(a, cursor, now))
         == Apply(db, UpdateCursor(a, cursor, now))
    ensures Apply(Apply(db, UpdateCursor(a, cursor, now)), Write.SetSyncError(a, text)).accounts[a].cursor
         == Some(cursor)
  {
  }

  // ---------------------------------------------------------------- emails

  /** Row by row, `after` is what `ids` of the emails become, and nothing else changed. */
  ghost predicate Becomes(db: Db, after: Db, ids: set<Uuid>, row: Email -> Email) {
    && after == db.(emails := after.emails) && after.emails.Keys == db.emails.Keys
    && (forall id | id in db.emails :: after.emails[id] == if id in ids then row(db.emails[id]) else db.emails[id])
  }

  function Of(db: Db, a: Uuid, p: string): set<Uuid> {
    set id | id in db.emails && db.emails[id].account == a && db.emails[id].messageId == p
  }

  function ActiveOf(db: Db, a: Option<Uuid>): set<Uuid> {
    set id | id in db.emails && !db.emails[id].trashed && (a == None || a == Some(db.emails[id].account))
  }

  /** Marks reported by the provider: the flag and the date of the message's row, and nothing else. */
  lemma MarkedMessage(db: Db, a: Uuid, p: string, now: int)
    ensures Becomes(db, Apply(db, Write.UpdateEmails(ByMessage(a, p), Trash(now))), Of(db, a, p),
                    (e: Email) => e.(trashed := true, trashedAt := Some(now)))
    ensures Becomes(db, Apply(db, Write.UpdateEmails(ByMessage(a, p), Untrash)), Of(db, a, p),
                    (e: Email) => e.(trashed := false, trashedAt := None))
  {
  }

  /** The read flag of one message. */
  lemma ReadMessage(db: Db, a: Uuid, p: string, isRead: bool)
    ensures Becomes(db, Apply(db, Write.UpdateEmails(ByMessage(a, p), SetRead(isRead))), Of(db, a, p),
                    (e: Email) => e.(isRead := isRead))
  {
  }

  /** What the user does to one email: to the trash, back from it, and viewed. */
  lemma TrashedEmail(db: Db, id: Uuid, now: int)
    ensures Becomes(db, Apply(db, Write.UpdateEmails(ById(id), Trash(now))), {id},
                    (e: Email) => e.(trashed := true, trashedAt := Some(now)))
  {
  }

  lemma RestoredEmail(db: Db, id: Uuid)
    ensures Becomes(db, Apply(db, Write.UpdateEmails(ById(id), Untrash)), {id},
                    (e: Email) => e.(trashed := false, trashedAt := None))
  {
  }

  lemma ViewedEmail(db: Db, id: Uuid)
    ensures Becomes(db, Apply(db, Write.UpdateEmails(ById(id), SetViewed)), {id}, (e: Email) => e.(viewed := true))
  {
  }

  /** Marking a scope read: exactly its active emails, read and viewed. */
  lemma ReadScope(db: Db, scope: Option<Uuid>)
    ensures Becomes(db, Apply(db, Write.UpdateEmails(Active(scope), ReadAndViewed)), ActiveOf(db, scope),
                    (e: Email) => e.(isRead := true, viewed := true))
  {
  }

  /** Exactly the emails `gone` are deleted, with exactly their classifications. */
  ghost predicate Loses(db: Db, after: Db, gone: set<Uuid>) {
    && after == db.(emails := after.emails, classifications := after.classifications)
    && (forall id :: id in after.emails <==> id in db.emails && id !in gone)
    && (forall id | id in after.emails :: after.emails[id] == db.emails[id])
    && (forall c :: c in after.classifications <==> c in db.classifications && db.classifications[c].email !in gone)
    && (forall c | c in after.classifications :: after.classifications[c] == db.classifications[c])
  }

  lemma DeletedMessage(db: Db, a: Uuid, p: string)
    ensures Loses(db, Apply(db, Write.DeleteEmails(ByMessage(a, p))), Of(db, a, p))
  {
    assert ByMessage(a, p).In(db.emails) == Of(db, a, p);
    DeletedRows(db, Of(db, a, p));
  }

  lemma DeletedEmail(db: Db, id: Uuid)
    requires WF(db)
    ensures Loses(db, Apply(db, Write.DeleteEmails(ById(id))), {id})
  {
    if id in db.emails {
      assert ById(id).In(db.emails) == {id};
      DeletedRows(db, {id});
    } else {
      assert ById(id).In(db.emails) == {};
      assert MatchesLinked(db);
      hide WF;
      DeletedRows(db, {});
    }
  }

  lemma DeletedRows(db: Db, gone: set<Uuid>)
    ensures Loses(db, DeleteRows(db, gone), gone)
  {
  }

  /**
   * An email trashed at `now` survives the retention purge of `days` days exactly until its retention has passed:
   * the purge at `later` removes it if and only if `days` days lie between.
   */
  lemma TrashSurvivesItsRetention(db: Db, id: Uuid, now: int, later: int, days: int)
    requires id in db.emails
    ensures var trashed := Apply(db, Write.UpdateEmails(ById(id), Trash(now)));
            var purged := Apply(trashed, Write.DeleteEmails(ExpiredTrash(later - days * 86400)));
            id !in purged.emails <==> later - now >= days * 86400
  {
    var trashed := Apply(db, Write.UpdateEmails(ById(id), Trash(now)));
    assert id in ById(id).In(db.emails);
    assert trashed.emails[id].trashed && trashed.emails[id].trashedAt == Some(now);
  }

  /** So does one that a pass has trashed. */
  lemma RemoteTrashSurvivesItsRetention(db: Db, a: Uuid, p: string, id: Uuid, now: int, later: int, days: int)
    requires id in Of(db, a, p)
    ensures var trashed := Apply(db, Write.UpdateEmails(ByMessage(a, p), Trash(now)));
            var purged := Apply(trashed, Write.DeleteEmails(ExpiredTrash(later - days * 86400)));
            id !in purged.emails <==> later - now >= days * 86400
  {
    var trashed := Apply(db, Write.UpdateEmails(ByMessage(a, p), Trash(now)));
    assert id in ByMessage(a, p).In(db.emails);
    assert trashed.emails[id].trashed && trashed.emails[id].trashedAt == Some(now);
  }

  /** Active mail is never purged as trash. */
  lemma ActiveMailIsNotExpired(db: Db, id: Uuid, cutoff: int)
    requires id in db.emails && !db.emails[id].trashed
    ensures id in Apply(db, Write.DeleteEmails(ExpiredTrash(cutoff))).emails
  {
  }

  // ---------------------------------------------------------------- criteria and classifications

  lemma InsertedCriterion(db: Db, name: string, description: string, now: int)
    requires WF(db)
    ensures var after := Apply(db, InsertCriterion(name, description, now));
            && after == db.(criteria := after.criteria, nextId := db.nextId + 1)
            && after.criteria.Keys == db.criteria.Keys + {db.nextId} && db.nextId !in db.criteria
            && after.criteria[db.nextId] == Criterion(name, description, true, now)
            && forall k | k in db.criteria :: after.criteria[k] == db.criteria[k]
  {
    IsNew(db);
    hide WF;
  }

  /** Switching a criterion on or off changes nothing else, and keeps its matches. */
  lemma SwitchedCriterion(db: Db, k: Uuid, on: bool)
    ensures Apply(db, SetCriterionActive(k, on))
         == if k in db.criteria then db.(criteria := db.criteria[k := db.criteria[k].(isActive := on)]) else db
  {
  }

  /** Deleting a criterion takes exactly its matches. */
  lemma DeletedCriterion(db: Db, k: Uuid)
    ensures var after := Apply(db, Write.DeleteCriterion(k));
            && after == db.(criteria := after.criteria, classifications := after.classifications)
            && (forall j :: j in after.criteria <==> j in db.criteria && j != k)
            && (forall j | j in after.criteria :: after.criteria[j] == db.criteria[j])
            && (forall c :: c in after.classifications
                  <==> c in db.classifications && db.classifications[c].criterion != k)
            && (forall c | c in after.classifications :: after.classifications[c] == db.classifications[c])
  {
  }

  predicate IsMatch(r: Classification, email: Uuid, criterion: Uuid) {
    r.email == email && r.criterion == criterion
  }

  /** Saving a match: the row of this email and criterion is there and has the confidence. */
  lemma SavedMatch(db: Db, email: Uuid, criterion: Uuid, confidence: Option<real>, now: int)
    requires WF(db) && email in db.emails && criterion in db.criteria
    ensures var after := Apply(db, Write.SaveClassification(email, criterion, confidence, now));
            && after == db.(classifications := after.classifications, nextId := after.nextId)
            && (exists c | c in after.classifications :: IsMatch(after.classifications[c], email, criterion))
            && (forall c | c in after.classifications && IsMatch(after.classifications[c], email, criterion) ::
                  after.classifications[c].confidence == confidence)
            && (forall c | c in after.classifications && IsMatch(after.classifications[c], email, criterion) ::
                  after.classifications[c].createdAt
                  == if c in db.classifications then db.classifications[c].createdAt else now)
  {
    IsNew(db);
    hide WF;
    var after := Apply(db, Write.SaveClassification(email, criterion, confidence, now));
    var ids := Store.MatchesOf(db.classifications, email, criterion);
    if c :| c in ids {
      assert IsMatch(after.classifications[c], email, criterion);
    } else {
      assert ids == {};
      assert IsMatch(after.classifications[db.nextId], email, criterion);
      forall c | c in db.classifications ensures !IsMatch(db.classifications[c], email, criterion) {
        assert c !in ids;
      }
    }
  }

  /** Saving a match leaves the rows of every other email or criterion alone. */
  lemma OtherMatchUntouched(db: Db, email: Uuid, criterion: Uuid, confidence: Option<real>, now: int,
                            otherEmail: Uuid, otherCriterion: Uuid, c: Uuid)
    requires WF(db) && (otherEmail != email || otherCriterion != criterion)
    ensures var rows := db.classifications;
            var after := Apply(db, Write.SaveClassification(email, criterion, confidence, now)).classifications;
            && (c in after && IsMatch(after[c], otherEmail, otherCriterion)
                <==> c in rows && IsMatch(rows[c], otherEmail, otherCriterion))
            && (c in after && c in rows && IsMatch(rows[c], otherEmail, otherCriterion) ==> after[c] == rows[c])
  {
    IsNew(db);
    hide WF;
  }

  /** Exactly the classifications that all given filters select are removed. */
  lemma ClearedMatches(db: Db, a: Option<Uuid>, email: Option<Uuid>, criterion: Option<Uuid>, c: Uuid)
    requires WF(db) && c in db.classifications
    ensures var after, row := Apply(db, DeleteClassifications(a, email, criterion)), db.classifications[c];
            && after == db.(classifications := after.classifications)
            && (c !in after.classifications <==>
                  && (a == None || a == Some(db.emails[row.email].account))
                  && (email == None || email == Some(row.email))
                  && (criterion == None || criterion == Some(row.criterion)))
            && (c in after.classifications ==> after.classifications[c] == row)
  {
    assert MatchesLinked(db);
    hide WF;
  }

  /** In particular one deleted match leaves every other. */
  lemma OneMatchDeleted(db: Db, email: Uuid, criterion: Uuid, c: Uuid)
    requires WF(db) && c in db.classifications
    ensures c in Apply(db, DeleteClassifications(None, Some(email), Some(criterion))).classifications
       <==> !IsMatch(db.classifications[c], email, criterion)
  {
    ClearedMatches(db, None, Some(email), Some(criterion), c);
  }
}
