/** Dashboard counters: the all-accounts figures are the sum of the per-account ones. */
module Stats {
  import opened Prelude
  import opened Store

  datatype MailboxStats = MailboxStats(unread: nat, findings: nat, total: nat)

  function Plus(x: MailboxStats, y: MailboxStats): MailboxStats {
    MailboxStats(x.unread + y.unread, x.findings + y.findings, x.total + y.total)
  }

  /** `?1 IS NULL OR account_id = ?1`. */
  predicate InScope(e: Email, scope: Option<Uuid>) {
    scope.None? || e.account == scope.value
  }

  function TotalIds(db: Db, scope: Option<Uuid>): set<Uuid> {
    set id | id in db.emails && !db.emails[id].trashed && InScope(db.emails[id], scope)
  }

  function UnreadIds(db: Db, scope: Option<Uuid>): set<Uuid> {
    set id | id in TotalIds(db, scope) && !db.emails[id].isRead && !db.emails[id].viewed
  }

  /** `DISTINCT c.email_id` over the join of classifications with unread mail. */
  function UnreadFindings(db: Db, scope: Option<Uuid>): set<Uuid> {
    set c | c in db.classifications && db.classifications[c].email in UnreadIds(db, scope)
      :: db.classifications[c].email
  }

  function GetMailboxStats(db: Db, scope: Option<Uuid>): MailboxStats {
    MailboxStats(|UnreadIds(db, scope)|, |UnreadFindings(db, scope)|, |TotalIds(db, scope)|)
  }

  /**
   * What is counted, column by column: active mail of the scope, what of it is neither read nor viewed, and what
   * of that has a match.
   */
  lemma CountersCount(db: Db, scope: Option<Uuid>)
    requires WF(db)
    ensures var active := set id | id in db.emails && !db.emails[id].trashed
                                   && (scope == None || scope == Some(db.emails[id].account));
            var unread := set id | id in active && !db.emails[id].isRead && !db.emails[id].viewed;
            var matched := set id | id in unread && exists c | c in db.classifications ::
                                                     db.classifications[c].email == id;
            GetMailboxStats(db, scope) == MailboxStats(|unread|, |matched|, |active|)
  {
    hide WF;
    var active := set id | id in db.emails && !db.emails[id].trashed
                           && (scope == None || scope == Some(db.emails[id].account));
    var unread := set id | id in active && !db.emails[id].isRead && !db.emails[id].viewed;
    assert active == TotalIds(db, scope);
    assert unread == UnreadIds(db, scope);
    assert UnreadFindings(db, scope)
        == set id | id in unread && exists c | c in db.classifications :: db.classifications[c].email == id;
  }

  /** Findings are among the unread, and the unread among all active mail. */
  lemma CountersAreOrdered(db: Db, scope: Option<Uuid>)
    ensures var s := GetMailboxStats(db, scope); s.findings <= s.unread <= s.total
  {
    SubsetSize(UnreadFindings(db, scope), UnreadIds(db, scope));
    SubsetSize(UnreadIds(db, scope), TotalIds(db, scope));
  }

  ghost function Any(accounts: set<Uuid>): (a: Uuid)
    requires accounts != {}
    ensures a in accounts
  {
    var a :| a in accounts; a
  }

  ghost function SumOfStats(db: Db, accounts: set<Uuid>): MailboxStats
    decreases |accounts|
  {
    if accounts == {} then MailboxStats(0, 0, 0)
    else
      var a := Any(accounts);
      Plus(GetMailboxStats(db, Some(a)), SumOfStats(db, accounts - {a}))
  }

  /** Counters restricted to the mail of a set of accounts. */
  function Owned(db: Db, ids: set<Uuid>, accounts: set<Uuid>): set<Uuid> {
    set id | id in ids && id in db.emails && db.emails[id].account in accounts
  }

  lemma SplitOff(db: Db, ids: set<Uuid>, accounts: set<Uuid>, a: Uuid)
    requires a in accounts
    ensures |Owned(db, ids, accounts)| == |Owned(db, ids, {a})| + |Owned(db, ids, accounts - {a})|
  {
    assert Owned(db, ids, accounts) == Owned(db, ids, {a}) + Owned(db, ids, accounts - {a});
    assert Owned(db, ids, {a}) !! Owned(db, ids, accounts - {a});
  }

  lemma OneAccount(db: Db, a: Uuid)
    ensures GetMailboxStats(db, Some(a))
         == MailboxStats(|Owned(db, UnreadIds(db, None), {a})|,
                         |Owned(db, UnreadFindings(db, None), {a})|,
                         |Owned(db, TotalIds(db, None), {a})|)
  {
    assert TotalIds(db, Some(a)) == Owned(db, TotalIds(db, None), {a});
    assert UnreadIds(db, Some(a)) == Owned(db, UnreadIds(db, None), {a});
    assert UnreadFindings(db, Some(a)) == Owned(db, UnreadFindings(db, None), {a});
  }

  lemma {:induction false} StatsOfAccounts(db: Db, accounts: set<Uuid>)
    ensures SumOfStats(db, accounts)
         == MailboxStats(|Owned(db, UnreadIds(db, None), accounts)|,
                         |Owned(db, UnreadFindings(db, None), accounts)|,
                         |Owned(db, TotalIds(db, None), accounts)|)
    decreases |accounts|
  {
    if accounts == {} {
      assert Owned(db, UnreadIds(db, None), {}) == {};
      assert Owned(db, UnreadFindings(db, None), {}) == {};
      assert Owned(db, TotalIds(db, None), {}) == {};
    } else {
      var a := Any(accounts);
      StatsOfAccounts(db, accounts - {a});
      OneAccount(db, a);
      SplitOff(db, UnreadIds(db, None), accounts, a);
      SplitOff(db, UnreadFindings(db, None), accounts, a);
      SplitOff(db, TotalIds(db, None), accounts, a);
    }
  }

  /**
   * In every reachable store the all-accounts counters are the sums over the linked accounts,
   * an email with several matches counting once on both sides.
   */
  lemma StatsAddUp(ws: seq<Write>)
    ensures var db := Run(EMPTY, ws);
            GetMailboxStats(db, None) == SumOfStats(db, db.accounts.Keys)
  {
    var db := Run(EMPTY, ws);
    ReachableStoresAreWellFormed(ws);
    StatsOfAccounts(db, db.accounts.Keys);
    assert Owned(db, TotalIds(db, None), db.accounts.Keys) == TotalIds(db, None);
    assert Owned(db, UnreadIds(db, None), db.accounts.Keys) == UnreadIds(db, None);
    assert Owned(db, UnreadFindings(db, None), db.accounts.Keys) == UnreadFindings(db, None);
  }

  // ---------------------------------------------------------------- what other statements do to the counters

  /** Marking a scope read leaves nothing unread in it, and every active email where it was. */
  lemma MarkAllReadClearsUnread(db: Db, scope: Option<Uuid>)
    ensures var after := Apply(db, UpdateEmails(Active(scope), ReadAndViewed));
            && GetMailboxStats(after, scope) == MailboxStats(0, 0, GetMailboxStats(db, scope).total)
            && (forall other :: TotalIds(after, other) == TotalIds(db, other))
  {
    var after := Apply(db, UpdateEmails(Active(scope), ReadAndViewed));
    forall other ensures TotalIds(after, other) == TotalIds(db, other) {
    }
    forall id | id in TotalIds(after, scope) ensures after.emails[id].isRead {
      assert id in Active(scope).In(db.emails);
    }
    assert UnreadIds(after, scope) == {};
    assert UnreadFindings(after, scope) == {};
  }

  /** Clearing the findings of an account empties its findings counter and changes no other count. */
  lemma ClearingEmptiesTheFindings(db: Db, a: Uuid)
    ensures var after := Apply(db, DeleteClassifications(Some(a), None, None));
            && FindingIds(after, a) == {}
            && GetMailboxStats(after, Some(a)) == GetMailboxStats(db, Some(a)).(findings := 0)
            && (forall b | b != a :: GetMailboxStats(after, Some(b)) == GetMailboxStats(db, Some(b)))
  {
    var after := Apply(db, DeleteClassifications(Some(a), None, None));
    assert after.emails == db.emails;
    assert TotalIds(after, Some(a)) == TotalIds(db, Some(a)) && UnreadIds(after, Some(a)) == UnreadIds(db, Some(a));
    forall c | c in after.classifications && after.classifications[c].email in db.emails
      ensures db.emails[after.classifications[c].email].account != a
    {
      assert c !in ClearedRows(db, Some(a), None, None);
    }
    assert UnreadFindings(after, Some(a)) == {};
    forall b | b != a ensures GetMailboxStats(after, Some(b)) == GetMailboxStats(db, Some(b)) {
      assert UnreadIds(after, Some(b)) == UnreadIds(db, Some(b));
      forall c | c in db.classifications && db.classifications[c].email in UnreadIds(db, Some(b))
        ensures c in after.classifications
      {
        assert c !in ClearedRows(db, Some(a), None, None);
      }
      assert UnreadFindings(after, Some(b)) == UnreadFindings(db, Some(b));
      assert TotalIds(after, Some(b)) == TotalIds(db, Some(b));
    }
  }

  /** Restoring undoes trashing: the whole store is as before. */
  lemma RestoreUndoesTrash(db: Db, id: Uuid, now: int)
    requires WF(db) && id in db.emails && !db.emails[id].trashed
    ensures Apply(Apply(db, UpdateEmails(ById(id), Trash(now))), UpdateEmails(ById(id), Untrash)) == db
  {
    assert TrashDatedRow(db.emails[id]);
    hide WF;
    var trashed := Apply(db, UpdateEmails(ById(id), Trash(now)));
    assert Apply(trashed, UpdateEmails(ById(id), Untrash)).emails == db.emails;
  }

  /** Trashing an active email takes exactly it out of the total. */
  lemma TrashLeavesTheTotal(db: Db, id: Uuid, now: int)
    requires id in db.emails && !db.emails[id].trashed
    ensures TotalIds(Apply(db, UpdateEmails(ById(id), Trash(now))), None) == TotalIds(db, None) - {id}
  {
  }
}
