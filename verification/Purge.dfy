/**
 * Capacity purging: what one purge removes, and why purging after every batch keeps exactly
 * what a single purge at the end would keep.
 */
module Purge {
  import opened Prelude
  import opened TopK
  import opened Store

  function PurgeOldRows(db: Db, account: Uuid, maxInbox: int, maxFindings: int): Db {
    Apply(Apply(db, TrimInbox(account, maxInbox)), TrimFindings(account, maxFindings))
  }

  ghost predicate Linked(db: Db) {
    forall c | c in db.classifications :: db.classifications[c].email in db.emails
  }

  function Doomed(db: Db, account: Uuid, maxInbox: int, maxFindings: int): set<Uuid> {
    InboxOverflow(db, account, maxInbox) + FindingsOverflow(db, account, maxFindings)
  }

  // ---------------------------------------------------------------- one purge

  /** The two statements act on disjoint kinds of mail, so together they are one deletion. */
  lemma PurgeIsOneDeletion(db: Db, a: Uuid, maxInbox: int, maxFindings: int)
    ensures PurgeOldRows(db, a, maxInbox, maxFindings) == DeleteRows(db, Doomed(db, a, maxInbox, maxFindings))
  {
    var mid := PurgeInbox(db, a, maxInbox);
    TrimLeavesFindings(db, a, maxInbox, maxFindings);
    assert PurgeOldRows(db, a, maxInbox, maxFindings) == PurgeFindings(mid, a, maxFindings);
    hide PurgeOldRows, InboxOverflow, FindingsOverflow;
    DeleteTwice(db, InboxOverflow(db, a, maxInbox), FindingsOverflow(db, a, maxFindings));
  }

  /** The first statement leaves every match, and what the second one selects. */
  lemma TrimLeavesFindings(db: Db, a: Uuid, maxInbox: int, maxFindings: int)
    ensures FindingsOverflow(PurgeInbox(db, a, maxInbox), a, maxFindings) == FindingsOverflow(db, a, maxFindings)
  {
    var over := InboxOverflow(db, a, maxInbox);
    var mid := PurgeInbox(db, a, maxInbox);
    assert mid.classifications == db.classifications by {
      forall c | c in db.classifications ensures db.classifications[c].email !in over {
        assert IsFinding(db, db.classifications[c].email);
      }
    }
    assert forall id | id in db.emails && id in mid.emails :: mid.emails[id] == db.emails[id];
    assert forall id :: IsFinding(mid, id) == IsFinding(db, id);
    assert FindingIds(mid, a) == FindingIds(db, a);
    SameJoin(db, mid, a);
    hide IsFinding, InboxOverflow, FindingIds, JoinedIds, JoinedItems;
    forall id ensures KeptFinding(mid, a, maxFindings, id) == KeptFinding(db, a, maxFindings, id) {
      SameKeptFindings(db, mid, a, maxFindings, id);
    }
  }

  lemma SameJoin(db: Db, mid: Db, a: Uuid)
    requires mid.classifications == db.classifications
    requires forall id | id in mid.emails :: id in db.emails && mid.emails[id] == db.emails[id]
    requires forall id | id in db.emails && IsFinding(db, id) :: id in mid.emails
    ensures JoinedIds(mid, a) == JoinedIds(db, a)
    ensures JoinedItems(mid, a) == JoinedItems(db, a)
  {
    forall c | c in db.classifications
      ensures c in JoinedIds(mid, a) <==> c in JoinedIds(db, a)
    {
      assert IsFinding(db, db.classifications[c].email);
    }
    assert JoinedIds(mid, a) == JoinedIds(db, a);
    assert forall c | c in JoinedIds(db, a) :: JoinedItem(mid, c) == JoinedItem(db, c);
  }

  lemma SameKeptFindings(db: Db, mid: Db, a: Uuid, k: int, id: Uuid)
    requires mid.classifications == db.classifications
    requires JoinedIds(mid, a) == JoinedIds(db, a) && JoinedItems(mid, a) == JoinedItems(db, a)
    requires forall i | i in mid.emails :: i in db.emails && mid.emails[i] == db.emails[i]
    ensures KeptFinding(mid, a, k, id) == KeptFinding(db, a, k, id)
  {
    assert forall c | c in JoinedIds(db, a) :: JoinedItem(mid, c) == JoinedItem(db, c);
  }

  /** What is left of each kind of mail. */
  lemma Survivors(db: Db, a: Uuid, maxInbox: int, maxFindings: int)
    requires Linked(db)
    ensures var after := PurgeOldRows(db, a, maxInbox, maxFindings);
            && InboxIds(after, a) == InboxIds(db, a) - InboxOverflow(db, a, maxInbox)
            && FindingIds(after, a) == FindingIds(db, a) - FindingsOverflow(db, a, maxFindings)
            && InboxItems(after, a) == Top(InboxItems(db, a), maxInbox)
            && Top(JoinedItems(db, a), maxFindings) <= JoinedItems(after, a) <= JoinedItems(db, a)
            && Linked(after)
  {
    PurgeIsOneDeletion(db, a, maxInbox, maxFindings);
    ViewAfterDelete(db, a, Doomed(db, a, maxInbox, maxFindings));
    DoomedByKind(db, a, maxInbox, maxFindings);
    InboxSurvivors(db, a, maxInbox, maxFindings);
    FindingsSurvivors(db, a, maxInbox, maxFindings);
    hide *;
  }

  /** Of each kind of mail only its own overflow goes. */
  lemma DoomedByKind(db: Db, a: Uuid, maxInbox: int, maxFindings: int)
    ensures var doomed := Doomed(db, a, maxInbox, maxFindings);
            && InboxIds(db, a) - doomed == InboxIds(db, a) - InboxOverflow(db, a, maxInbox)
            && FindingIds(db, a) - doomed == FindingIds(db, a) - FindingsOverflow(db, a, maxFindings)
  {
    hide KeptFinding, InboxItem, Top;
  }

  lemma InboxSurvivors(db: Db, a: Uuid, maxInbox: int, maxFindings: int)
    requires Linked(db)
    ensures InboxItems(PurgeOldRows(db, a, maxInbox, maxFindings), a) == Top(InboxItems(db, a), maxInbox)
  {
    var doomed := Doomed(db, a, maxInbox, maxFindings);
    var after := PurgeOldRows(db, a, maxInbox, maxFindings);
    PurgeIsOneDeletion(db, a, maxInbox, maxFindings);
    ViewAfterDelete(db, a, doomed);
    DoomedByKind(db, a, maxInbox, maxFindings);
    hide PurgeOldRows, Doomed, Linked, FindingsOverflow;
    assert forall id | id in after.emails :: InboxItem(after, id) == InboxItem(db, id);
    forall it ensures it in InboxItems(after, a) <==> it in Top(InboxItems(db, a), maxInbox) {
      InboxItemIn(after, a, it);
      InboxItemIn(db, a, it);
    }
  }

  lemma FindingsSurvivors(db: Db, a: Uuid, maxInbox: int, maxFindings: int)
    requires Linked(db)
    ensures var after := PurgeOldRows(db, a, maxInbox, maxFindings);
            Top(JoinedItems(db, a), maxFindings) <= JoinedItems(after, a) <= JoinedItems(db, a)
  {
    var doomed := Doomed(db, a, maxInbox, maxFindings);
    var after := PurgeOldRows(db, a, maxInbox, maxFindings);
    PurgeIsOneDeletion(db, a, maxInbox, maxFindings);
    ViewAfterDelete(db, a, doomed);
    hide PurgeOldRows;
    forall it | it in JoinedItems(after, a) ensures it in JoinedItems(db, a) {
      JoinedItemIn(after, a, it);
      JoinedItemIn(db, a, it);
    }
    forall it | it in Top(JoinedItems(db, a), maxFindings) ensures it in JoinedItems(after, a) {
      JoinedItemIn(after, a, it);
      JoinedItemIn(db, a, it);
      assert KeptFinding(db, a, maxFindings, db.classifications[it.id].email);
      assert IsFinding(db, db.classifications[it.id].email);
    }
  }

  lemma InboxItemIn(db: Db, a: Uuid, it: Item)
    ensures it in InboxItems(db, a) <==> it.id in InboxIds(db, a) && it == InboxItem(db, it.id)
  {
  }

  lemma JoinedItemIn(db: Db, a: Uuid, it: Item)
    ensures it in JoinedItems(db, a) <==> it.id in JoinedIds(db, a) && it == JoinedItem(db, it.id)
  {
  }

  lemma {:induction false} InboxItemCount(db: Db, ids: set<Uuid>)
    requires ids <= db.emails.Keys
    ensures |set id | id in ids :: InboxItem(db, id)| == |ids|
    decreases |ids|
  {
    if ids != {} {
      var x :| x in ids;
      var items := set id | id in ids :: InboxItem(db, id);
      var rest := set id | id in ids - {x} :: InboxItem(db, id);
      InboxItemCount(db, ids - {x});
      assert InboxItem(db, x) !in rest;
      assert items == rest + {InboxItem(db, x)};
    }
  }

  /** Distinct findings need distinct rows. */
  lemma {:induction false} FindingCount(db: Db, a: Uuid, ids: set<Uuid>, rows: set<Item>)
    requires forall id | id in ids ::
               exists it | it in rows :: it.id in db.classifications && db.classifications[it.id].email == id
    ensures |ids| <= |rows|
    decreases |ids|
  {
    if ids != {} {
      var x :| x in ids;
      var it :| it in rows && it.id in db.classifications && db.classifications[it.id].email == x;
      FindingCount(db, a, ids - {x}, rows - {it});
    }
  }

  /**
   * Afterwards the account holds exactly min(n, limit) unclassified inbox emails; a negative
   * limit removes nothing.
   */
  lemma InboxMeetsTheLimit(db: Db, a: Uuid, maxInbox: int, maxFindings: int)
    requires Linked(db)
    ensures |InboxIds(PurgeOldRows(db, a, maxInbox, maxFindings), a)|
         == if maxInbox < 0 then |InboxIds(db, a)| else Min(|InboxIds(db, a)|, maxInbox)
  {
    var after := PurgeOldRows(db, a, maxInbox, maxFindings);
    Survivors(db, a, maxInbox, maxFindings);
    InboxItemCount(db, InboxIds(db, a));
    InboxItemCount(after, InboxIds(after, a));
    if maxInbox >= 0 {
      TopSize(InboxItems(db, a), maxInbox);
    }
  }

  /**
   * Afterwards the account holds at most `maxFindings` findings, but at least one if there were
   * any and the limit is positive; a negative limit removes nothing.
   */
  lemma FindingsMeetTheLimit(db: Db, a: Uuid, maxInbox: int, maxFindings: int)
    requires Linked(db)
    ensures var after := PurgeOldRows(db, a, maxInbox, maxFindings);
            && (maxFindings >= 0 ==> |FindingIds(after, a)| <= maxFindings)
            && (maxFindings < 0 ==> FindingIds(after, a) == FindingIds(db, a))
            && (maxFindings > 0 && FindingIds(db, a) != {} ==> FindingIds(after, a) != {})
  {
    var after := PurgeOldRows(db, a, maxInbox, maxFindings);
    Survivors(db, a, maxInbox, maxFindings);
    if maxFindings < 0 {
      NoLimitKeepsFindings(db, a, maxFindings);
    } else {
      AtMostAsManyFindings(db, a, maxFindings, FindingIds(after, a));
      if maxFindings > 0 && FindingIds(db, a) != {} {
        var winner := SomeFindingKept(db, a, maxFindings);
        assert winner in FindingIds(after, a);
      }
    }
  }

  lemma NoLimitKeepsFindings(db: Db, a: Uuid, k: int)
    requires k < 0
    ensures FindingsOverflow(db, a, k) == {}
  {
    forall id | id in FindingIds(db, a) ensures KeptFinding(db, a, k, id) {
      var c :| c in db.classifications && db.classifications[c].email == id;
      assert c in JoinedIds(db, a) && JoinedItem(db, c) in JoinedItems(db, a);
    }
  }

  lemma AtMostAsManyFindings(db: Db, a: Uuid, k: nat, ids: set<Uuid>)
    requires forall id | id in ids :: KeptFinding(db, a, k, id)
    ensures |ids| <= k
  {
    var rows := Top(JoinedItems(db, a), k);
    TopSize(JoinedItems(db, a), k);
    forall id | id in ids
      ensures exists it | it in rows :: it.id in db.classifications && db.classifications[it.id].email == id
    {
      var c :| c in JoinedIds(db, a) && db.classifications[c].email == id && JoinedItem(db, c) in rows;
      assert JoinedItem(db, c).id == c;
    }
    FindingCount(db, a, ids, rows);
  }

  lemma SomeFindingKept(db: Db, a: Uuid, k: int) returns (winner: Uuid)
    requires k > 0 && FindingIds(db, a) != {}
    ensures winner in FindingIds(db, a) && KeptFinding(db, a, k, winner)
  {
    var rows := JoinedItems(db, a);
    var id :| id in FindingIds(db, a);
    var c :| c in db.classifications && db.classifications[c].email == id;
    assert c in JoinedIds(db, a) && JoinedItem(db, c) in rows;
    TopSize(rows, k);
    assert Top(rows, k) != {};
    var it :| it in Top(rows, k);
    JoinedItemIn(db, a, it);
    winner := db.classifications[it.id].email;
  }

  /** No removed email is newer than a kept one of its kind. */
  lemma PurgeKeepsTheNewest(db: Db, a: Uuid, maxInbox: int, maxFindings: int, kept: Uuid, removed: Uuid)
    requires Linked(db)
    ensures var after := PurgeOldRows(db, a, maxInbox, maxFindings);
            removed in db.emails && removed !in after.emails ==>
              && (removed in InboxIds(db, a) || removed in FindingIds(db, a))
              && (|| (removed in InboxIds(db, a) && kept in InboxIds(after, a))
                  || (removed in FindingIds(db, a) && kept in FindingIds(after, a))
                  ==> kept in db.emails && db.emails[kept].receivedAt >= db.emails[removed].receivedAt)
  {
    var after := PurgeOldRows(db, a, maxInbox, maxFindings);
    PurgeIsOneDeletion(db, a, maxInbox, maxFindings);
    Survivors(db, a, maxInbox, maxFindings);
    hide PurgeOldRows;
    if removed in db.emails && removed !in after.emails {
      if removed in InboxIds(db, a) && kept in InboxIds(after, a) {
        SelectedFirst(InboxItems(db, a), maxInbox, InboxItem(db, kept), InboxItem(db, removed));
      } else if removed in FindingIds(db, a) && kept in FindingIds(after, a) {
        NewestFindingKept(db, a, maxFindings, kept, removed);
      }
    }
  }

  lemma NewestFindingKept(db: Db, a: Uuid, maxFindings: int, kept: Uuid, removed: Uuid)
    requires Linked(db) && removed in FindingsOverflow(db, a, maxFindings)
    requires kept in FindingIds(db, a) && kept !in FindingsOverflow(db, a, maxFindings)
    ensures db.emails[kept].receivedAt >= db.emails[removed].receivedAt
  {
    var rows := JoinedItems(db, a);
    var c :| c in JoinedIds(db, a) && db.classifications[c].email == kept
             && JoinedItem(db, c) in Top(rows, maxFindings);
    var d :| d in db.classifications && db.classifications[d].email == removed;
    assert d in JoinedIds(db, a) && JoinedItem(db, d) in rows;
    SelectedFirst(rows, maxFindings, JoinedItem(db, c), JoinedItem(db, d));
  }

  /** Trashed mail, mail of other accounts and every surviving finding keep their rows untouched. */
  lemma PurgeTouchesNothingElse(db: Db, a: Uuid, maxInbox: int, maxFindings: int, id: Uuid)
    requires id in db.emails
    ensures var after := PurgeOldRows(db, a, maxInbox, maxFindings);
            && after.accounts == db.accounts && after.criteria == db.criteria
            && (id in after.emails ==> after.emails[id] == db.emails[id])
            && (db.emails[id].trashed || db.emails[id].account != a ==> id in after.emails)
            && (forall c | c in db.classifications && db.classifications[c].email == id ::
                  c in after.classifications <==> id in after.emails)
  {
    PurgeIsOneDeletion(db, a, maxInbox, maxFindings);
  }

  // ---------------------------------------------------------------- purging as mail arrives

  /** New mail together with the matches found for it. */
  datatype Batch = Batch(emails: map<Uuid, Email>, classifications: map<Uuid, Classification>)

  function Add(db: Db, b: Batch): Db {
    db.(emails := db.emails + b.emails, classifications := db.classifications + b.classifications)
  }

  ghost predicate Fresh(db: Db, b: Batch) {
    && b.emails.Keys !! db.emails.Keys
    && b.classifications.Keys !! db.classifications.Keys
    && (forall c | c in b.classifications :: b.classifications[c].email in b.emails)
  }

  function NewInbox(b: Batch, a: Uuid): set<Item> {
    InboxItems(Add(EMPTY, b), a)
  }

  function NewJoined(b: Batch, a: Uuid): set<Item> {
    JoinedItems(Add(EMPTY, b), a)
  }

  lemma AddedFindings(db: Db, b: Batch, id: Uuid)
    requires Linked(db) && Fresh(db, b) && id in Add(db, b).emails
    ensures IsFinding(Add(db, b), id) == if id in db.emails then IsFinding(db, id) else IsFinding(Add(EMPTY, b), id)
  {
    var sum := Add(db, b);
    if c :| c in db.classifications && db.classifications[c].email == id {
      assert c in sum.classifications && sum.classifications[c] == db.classifications[c];
    }
    if c :| c in b.classifications && b.classifications[c].email == id {
      assert c in sum.classifications && sum.classifications[c] == b.classifications[c];
    }
  }

  lemma AddedItems(db: Db, b: Batch, a: Uuid)
    requires Linked(db) && Fresh(db, b)
    ensures Linked(Add(db, b))
    ensures forall id | id in db.emails :: IsFinding(Add(db, b), id) == IsFinding(db, id)
    ensures InboxItems(Add(db, b), a) == InboxItems(db, a) + NewInbox(b, a)
    ensures JoinedItems(Add(db, b), a) == JoinedItems(db, a) + NewJoined(b, a)
  {
    var sum, alone := Add(db, b), Add(EMPTY, b);
    forall id | id in sum.emails
      ensures IsFinding(sum, id) == if id in db.emails then IsFinding(db, id) else IsFinding(alone, id)
    {
      AddedFindings(db, b, id);
    }
    hide IsFinding;
    hide InboxItems, JoinedItems;
    forall it ensures it in InboxItems(sum, a) <==> it in InboxItems(db, a) || it in NewInbox(b, a) {
      InboxItemIn(sum, a, it);
      InboxItemIn(db, a, it);
      InboxItemIn(alone, a, it);
    }
    forall it ensures it in JoinedItems(sum, a) <==> it in JoinedItems(db, a) || it in NewJoined(b, a) {
      JoinedItemIn(sum, a, it);
      JoinedItemIn(db, a, it);
      JoinedItemIn(alone, a, it);
    }
  }

  function ActiveIds(db: Db, a: Uuid): set<Uuid> {
    set id | id in db.emails && ActiveIn(db, a, id)
  }

  /** The emails that own a selected row of either query. */
  function Owners(db: Db, inbox: set<Item>, joined: set<Item>): set<Uuid> {
    (set it | it in inbox :: it.id)
    + (set it | it in joined && it.id in db.classifications :: db.classifications[it.id].email)
  }

  function Selected(db: Db, a: Uuid, maxInbox: int, maxFindings: int): set<Uuid> {
    Owners(db, Top(InboxItems(db, a), maxInbox), Top(JoinedItems(db, a), maxFindings))
  }

  /** A purge removes the active emails that own no selected row. */
  lemma DoomedAreUnselected(db: Db, a: Uuid, maxInbox: int, maxFindings: int)
    requires Linked(db)
    ensures Doomed(db, a, maxInbox, maxFindings) == ActiveIds(db, a) - Selected(db, a, maxInbox, maxFindings)
    ensures Selected(db, a, maxInbox, maxFindings) <= ActiveIds(db, a)
  {
    var inbox, joined := Top(InboxItems(db, a), maxInbox), Top(JoinedItems(db, a), maxFindings);
    forall id ensures id in (set it | it in inbox :: it.id) <==> id in InboxIds(db, a) && InboxItem(db, id) in inbox {
      if it :| it in inbox && it.id == id {
        InboxItemIn(db, a, it);
      }
      if id in InboxIds(db, a) && InboxItem(db, id) in inbox {
        assert InboxItem(db, id).id == id;
      }
    }
    forall id ensures id in (set it | it in joined && it.id in db.classifications :: db.classifications[it.id].email)
                 <==> KeptFinding(db, a, maxFindings, id)
    {
      if it :| it in joined && it.id in db.classifications && db.classifications[it.id].email == id {
        JoinedItemIn(db, a, it);
      }
      if c :| c in JoinedIds(db, a) && db.classifications[c].email == id && JoinedItem(db, c) in joined {
        assert JoinedItem(db, c).id == c;
      }
    }
    forall id | KeptFinding(db, a, maxFindings, id) ensures id in FindingIds(db, a) {
    }
  }

  lemma DeleteThenAdd(db: Db, b: Batch, ids: set<Uuid>)
    requires Fresh(db, b) && ids <= db.emails.Keys
    ensures Fresh(DeleteRows(db, ids), b)
    ensures Add(DeleteRows(db, ids), b) == DeleteRows(Add(db, b), ids)
  {
    assert db.emails.Keys !! b.emails.Keys;
    AddAfterMinus(db.emails, b.emails, ids);
    AddAfterWithout(db.classifications, b.classifications, ids);
  }

  lemma AddAfterMinus(m: map<Uuid, Email>, extra: map<Uuid, Email>, ids: set<Uuid>)
    requires extra.Keys !! ids
    ensures (m - ids) + extra == (m + extra) - ids
  {
  }

  lemma AddAfterWithout(m: map<Uuid, Classification>, extra: map<Uuid, Classification>, ids: set<Uuid>)
    requires forall c | c in extra :: extra[c].email !in ids
    requires extra.Keys !! m.Keys
    ensures WithoutEmails(m, ids) + extra == WithoutEmails(m + extra, ids)
  {
  }

  lemma DeleteTwice(db: Db, x: set<Uuid>, y: set<Uuid>)
    ensures DeleteRows(DeleteRows(db, x), y) == DeleteRows(db, x + y)
  {
    assert db.emails - x - y == db.emails - (x + y);
    assert WithoutEmails(WithoutEmails(db.classifications, x), y) == WithoutEmails(db.classifications, x + y);
  }

  /** Nothing happened to the store but deletions of emails with their matches. */
  ghost predicate OnlyDeletions(start: Db, now: Db) {
    exists gone :: now == DeleteRows(start, gone)
  }

  lemma MoreDeletions(start: Db, mid: Db, more: set<Uuid>)
    requires OnlyDeletions(start, mid)
    ensures OnlyDeletions(start, DeleteRows(mid, more))
  {
    var gone :| mid == DeleteRows(start, gone);
    DeleteTwice(start, gone, more);
  }

  /** An account purged in part on top of earlier deletions. */
  lemma StillDeletions(start: Db, mid: Db, after: Db, a: Uuid, maxInbox: int, maxFindings: int)
    requires OnlyDeletions(start, mid)
    requires || after == mid || after == Apply(mid, TrimInbox(a, maxInbox))
             || after == PurgeOldRows(mid, a, maxInbox, maxFindings)
    ensures OnlyDeletions(start, after)
  {
    PurgeIsOneDeletion(mid, a, maxInbox, maxFindings);
    MoreDeletions(start, mid, Doomed(mid, a, maxInbox, maxFindings));
    MoreDeletions(start, mid, InboxOverflow(mid, a, maxInbox));
    TrimIsOneDeletion(mid, a, maxInbox);
    hide *;
  }

  lemma TrimIsOneDeletion(db: Db, a: Uuid, maxInbox: int)
    ensures Apply(db, TrimInbox(a, maxInbox)) == DeleteRows(db, InboxOverflow(db, a, maxInbox))
  {
    hide DeleteRows, InboxOverflow;
  }

  /** A purge before a batch arrives makes no difference to the purge after it. */
  lemma EarlierPurgeIsAbsorbed(db: Db, b: Batch, a: Uuid, maxInbox: int, maxFindings: int)
    requires Linked(db) && Fresh(db, b)
    ensures PurgeOldRows(Add(PurgeOldRows(db, a, maxInbox, maxFindings), b), a, maxInbox, maxFindings)
         == PurgeOldRows(Add(db, b), a, maxInbox, maxFindings)
  {
    var gone := Doomed(db, a, maxInbox, maxFindings);
    var late, both := Add(db, b), Add(PurgeOldRows(db, a, maxInbox, maxFindings), b);
    var last := Doomed(both, a, maxInbox, maxFindings);
    calc {
      PurgeOldRows(both, a, maxInbox, maxFindings);
      { PurgeIsOneDeletion(both, a, maxInbox, maxFindings); }
      DeleteRows(both, last);
      { PurgeIsOneDeletion(db, a, maxInbox, maxFindings); DeleteThenAdd(db, b, gone); }
      DeleteRows(DeleteRows(late, gone), last);
      { DeleteTwice(late, gone, last); }
      DeleteRows(late, gone + last);
      { DoomedAddsUp(db, b, a, maxInbox, maxFindings); }
      DeleteRows(late, Doomed(late, a, maxInbox, maxFindings));
      { PurgeIsOneDeletion(late, a, maxInbox, maxFindings); }
      PurgeOldRows(late, a, maxInbox, maxFindings);
    }
  }

  lemma ActiveAfter(db: Db, b: Batch, ids: set<Uuid>, a: Uuid)
    requires Fresh(db, b)
    ensures ActiveIds(DeleteRows(db, ids), a) == ActiveIds(db, a) - ids
    ensures ActiveIds(db, a) <= ActiveIds(Add(db, b), a)
  {
  }

  lemma DoomedAddsUp(db: Db, b: Batch, a: Uuid, maxInbox: int, maxFindings: int)
    requires Linked(db) && Fresh(db, b)
    ensures Doomed(Add(db, b), a, maxInbox, maxFindings)
         == Doomed(db, a, maxInbox, maxFindings)
            + Doomed(Add(PurgeOldRows(db, a, maxInbox, maxFindings), b), a, maxInbox, maxFindings)
  {
    var late, both := Add(db, b), Add(PurgeOldRows(db, a, maxInbox, maxFindings), b);
    var gone := Doomed(db, a, maxInbox, maxFindings);
    var chosen := Selected(late, a, maxInbox, maxFindings);
    assert gone <= ActiveIds(db, a) by {
      DoomedAreUnselected(db, a, maxInbox, maxFindings);
    }
    assert ActiveIds(both, a) == ActiveIds(late, a) - gone && gone <= ActiveIds(late, a) by {
      PurgeIsOneDeletion(db, a, maxInbox, maxFindings);
      DeleteThenAdd(db, b, gone);
      ActiveAfter(late, Batch(map[], map[]), gone, a);
      ActiveAfter(db, b, {}, a);
    }
    SameSelection(db, b, a, maxInbox, maxFindings);
    DoomedAreUnselected(late, a, maxInbox, maxFindings);
    DoomedAreUnselected(both, a, maxInbox, maxFindings);
    SplitDifference(ActiveIds(late, a), gone, chosen);
  }

  lemma SplitDifference(active: set<Uuid>, gone: set<Uuid>, chosen: set<Uuid>)
    requires gone <= active && chosen <= active - gone
    ensures active - chosen == gone + (active - gone - chosen)
  {
  }

  lemma SameSelection(db: Db, b: Batch, a: Uuid, maxInbox: int, maxFindings: int)
    requires Linked(db) && Fresh(db, b)
    ensures var both := Add(PurgeOldRows(db, a, maxInbox, maxFindings), b);
            && Linked(both) && Linked(Add(db, b))
            && Selected(both, a, maxInbox, maxFindings) == Selected(Add(db, b), a, maxInbox, maxFindings)
  {
    var early := PurgeOldRows(db, a, maxInbox, maxFindings);
    var late, both := Add(db, b), Add(early, b);
    assert Linked(early) && Fresh(early, b) by {
      Survivors(db, a, maxInbox, maxFindings);
      PurgeIsOneDeletion(db, a, maxInbox, maxFindings);
      DeleteThenAdd(db, b, Doomed(db, a, maxInbox, maxFindings));
    }
    AddedItems(db, b, a);
    AddedItems(early, b, a);
    SameTops(db, b, a, maxInbox, maxFindings);
    var inbox, joined := Top(InboxItems(late, a), maxInbox), Top(JoinedItems(late, a), maxFindings);
    hide PurgeOldRows, Add, Fresh, Linked, InboxItems;
    forall it | it in joined
      ensures it.id in both.classifications && it.id in late.classifications
      ensures both.classifications[it.id] == late.classifications[it.id]
    {
      JoinedItemIn(both, a, it);
      JoinedItemIn(late, a, it);
      SameMatchRow(db, b, a, maxInbox, maxFindings, it.id);
    }
    SameOwners(both, late, inbox, joined);
  }

  lemma SameOwners(x: Db, y: Db, inbox: set<Item>, joined: set<Item>)
    requires forall it | it in joined ::
               it.id in x.classifications && it.id in y.classifications
               && x.classifications[it.id] == y.classifications[it.id]
    ensures Owners(x, inbox, joined) == Owners(y, inbox, joined)
  {
  }

  lemma SameMatchRow(db: Db, b: Batch, a: Uuid, maxInbox: int, maxFindings: int, c: Uuid)
    requires Fresh(db, b)
    requires c in Add(PurgeOldRows(db, a, maxInbox, maxFindings), b).classifications
    ensures c in Add(db, b).classifications
    ensures Add(PurgeOldRows(db, a, maxInbox, maxFindings), b).classifications[c] == Add(db, b).classifications[c]
  {
    PurgeIsOneDeletion(db, a, maxInbox, maxFindings);
  }

  lemma SameTops(db: Db, b: Batch, a: Uuid, maxInbox: int, maxFindings: int)
    requires Linked(db) && Fresh(db, b)
    requires Linked(PurgeOldRows(db, a, maxInbox, maxFindings)) && Fresh(PurgeOldRows(db, a, maxInbox, maxFindings), b)
    ensures var late, both := Add(db, b), Add(PurgeOldRows(db, a, maxInbox, maxFindings), b);
            && Top(InboxItems(both, a), maxInbox) == Top(InboxItems(late, a), maxInbox)
            && Top(JoinedItems(both, a), maxFindings) == Top(JoinedItems(late, a), maxFindings)
  {
    var early := PurgeOldRows(db, a, maxInbox, maxFindings);
    Survivors(db, a, maxInbox, maxFindings);
    TopOfTop(InboxItems(db, a), maxInbox);
    AddedItems(db, b, a);
    AddedItems(early, b, a);
    Absorb(InboxItems(db, a), InboxItems(early, a), NewInbox(b, a), maxInbox);
    Absorb(JoinedItems(db, a), JoinedItems(early, a), NewJoined(b, a), maxFindings);
  }

  lemma TopOfTop(s: set<Item>, k: int)
    ensures Top(s, k) <= s
  {
  }

  function AddAll(db: Db, bs: seq<Batch>): Db {
    if bs == [] then db else Add(AddAll(db, bs[..|bs| - 1]), bs[|bs| - 1])
  }

  function PurgeEach(db: Db, bs: seq<Batch>, a: Uuid, maxInbox: int, maxFindings: int): Db {
    if bs == [] then db
    else
      var earlier := PurgeEach(db, bs[..|bs| - 1], a, maxInbox, maxFindings);
      PurgeOldRows(Add(earlier, bs[|bs| - 1]), a, maxInbox, maxFindings)
  }

  ghost predicate AllFresh(db: Db, bs: seq<Batch>) {
    bs != [] ==> AllFresh(db, bs[..|bs| - 1]) && Fresh(AddAll(db, bs[..|bs| - 1]), bs[|bs| - 1])
  }

  lemma {:induction false} AddAllLinked(db: Db, bs: seq<Batch>)
    requires Linked(db) && AllFresh(db, bs)
    ensures Linked(AddAll(db, bs))
  {
    if bs != [] {
      AddAllLinked(db, bs[..|bs| - 1]);
      AddedItems(AddAll(db, bs[..|bs| - 1]), bs[|bs| - 1], 0);
    }
  }

  /**
   * Purging after every batch leaves exactly the tables that one purge at the end leaves, for
   * unclassified mail and for findings with several matches alike.
   */
  lemma {:induction false} PurgingAsYouGoEqualsPurgingOnce(db: Db, bs: seq<Batch>, a: Uuid,
                                                           maxInbox: int, maxFindings: int)
    requires Linked(db) && AllFresh(db, bs) && bs != []
    ensures PurgeEach(db, bs, a, maxInbox, maxFindings) == PurgeOldRows(AddAll(db, bs), a, maxInbox, maxFindings)
  {
    var init, last := bs[..|bs| - 1], bs[|bs| - 1];
    if init != [] {
      PurgingAsYouGoEqualsPurgingOnce(db, init, a, maxInbox, maxFindings);
      AddAllLinked(db, init);
      EarlierPurgeIsAbsorbed(AddAll(db, init), last, a, maxInbox, maxFindings);
    }
  }

  /** Hence a second purge removes nothing. */
  lemma PurgeIsIdempotent(db: Db, a: Uuid, maxInbox: int, maxFindings: int)
    requires Linked(db)
    ensures var after := PurgeOldRows(db, a, maxInbox, maxFindings);
            PurgeOldRows(after, a, maxInbox, maxFindings) == after
  {
    var nothing := Batch(map[], map[]);
    var after := PurgeOldRows(db, a, maxInbox, maxFindings);
    EarlierPurgeIsAbsorbed(db, nothing, a, maxInbox, maxFindings);
    assert Add(db, nothing) == db && Add(after, nothing) == after;
  }

  /** However much unclassified mail arrives, the purge keeps the same findings. */
  lemma UnclassifiedMailNeverEvictsAFinding(db: Db, b: Batch, a: Uuid, maxInbox: int, maxFindings: int)
    requires Linked(db) && Fresh(db, b) && b.classifications == map[]
    ensures FindingIds(PurgeOldRows(Add(db, b), a, maxInbox, maxFindings), a)
         == FindingIds(PurgeOldRows(db, a, maxInbox, maxFindings), a)
  {
    UnclassifiedMailLeavesMatches(db, b, a);
    Survivors(db, a, maxInbox, maxFindings);
    Survivors(Add(db, b), a, maxInbox, maxFindings);
    hide PurgeOldRows, Add, Linked, Fresh, FindingIds, JoinedItems;
    forall id ensures KeptFinding(Add(db, b), a, maxFindings, id) == KeptFinding(db, a, maxFindings, id) {
    }
  }

  lemma UnclassifiedMailLeavesMatches(db: Db, b: Batch, a: Uuid)
    requires Linked(db) && Fresh(db, b) && b.classifications == map[]
    ensures var sum := Add(db, b);
            && Linked(sum) && sum.classifications == db.classifications
            && FindingIds(sum, a) == FindingIds(db, a)
            && JoinedIds(sum, a) == JoinedIds(db, a) && JoinedItems(sum, a) == JoinedItems(db, a)
  {
    var sum := Add(db, b);
    AddedItems(db, b, a);
    assert sum.classifications == db.classifications;
    assert forall id | id in sum.emails && id !in db.emails :: !IsFinding(sum, id);
    assert FindingIds(sum, a) == FindingIds(db, a);
    assert JoinedIds(sum, a) == JoinedIds(db, a);
    assert forall c | c in JoinedIds(db, a) :: JoinedItem(sum, c) == JoinedItem(db, c);
  }

  // ---------------------------------------------------------------- account by account

  /** Two stores show the same active mail of an account, with the same matches. */
  ghost predicate SameAccountView(x: Db, y: Db, a: Uuid) {
    && Linked(x) && Linked(y)
    && ActiveIds(x, a) == ActiveIds(y, a)
    && (forall id | id in ActiveIds(x, a) :: x.emails[id].receivedAt == y.emails[id].receivedAt)
    && JoinedIds(x, a) == JoinedIds(y, a)
    && (forall c | c in JoinedIds(x, a) :: x.classifications[c].email == y.classifications[c].email)
    && InboxIds(x, a) == InboxIds(y, a)
    && FindingIds(x, a) == FindingIds(y, a)
  }

  lemma SameViewSameDoomed(x: Db, y: Db, a: Uuid, maxInbox: int, maxFindings: int)
    requires SameAccountView(x, y, a)
    ensures Doomed(x, a, maxInbox, maxFindings) == Doomed(y, a, maxInbox, maxFindings)
  {
    assert forall id | id in InboxIds(x, a) :: id in ActiveIds(x, a) && InboxItem(x, id) == InboxItem(y, id);
    assert InboxItems(x, a) == InboxItems(y, a);
    assert forall c | c in JoinedIds(x, a) ::
             x.classifications[c].email in ActiveIds(x, a) && JoinedItem(x, c) == JoinedItem(y, c);
    assert JoinedItems(x, a) == JoinedItems(y, a);
    forall id ensures KeptFinding(x, a, maxFindings, id) == KeptFinding(y, a, maxFindings, id) {
    }
  }

  lemma ViewAfterDelete(db: Db, a: Uuid, ids: set<Uuid>)
    requires Linked(db)
    ensures var after := DeleteRows(db, ids);
            && Linked(after)
            && ActiveIds(after, a) == ActiveIds(db, a) - ids
            && InboxIds(after, a) == InboxIds(db, a) - ids
            && FindingIds(after, a) == FindingIds(db, a) - ids
            && JoinedIds(after, a) == (set c | c in JoinedIds(db, a) && db.classifications[c].email !in ids)
            && (forall c | c in JoinedIds(after, a) :: after.classifications[c] == db.classifications[c])
  {
    var after := DeleteRows(db, ids);
    forall id | id in after.emails ensures IsFinding(after, id) == IsFinding(db, id) {
      if c :| c in db.classifications && db.classifications[c].email == id {
        assert c in after.classifications;
      }
    }
  }

  /** What a purge does to an account depends only on that account's active mail and matches. */
  lemma SameViewSamePurge(x: Db, y: Db, a: Uuid, maxInbox: int, maxFindings: int)
    requires SameAccountView(x, y, a)
    ensures SameAccountView(PurgeOldRows(x, a, maxInbox, maxFindings), PurgeOldRows(y, a, maxInbox, maxFindings), a)
  {
    var gone := Doomed(x, a, maxInbox, maxFindings);
    SameViewSameDoomed(x, y, a, maxInbox, maxFindings);
    PurgeIsOneDeletion(x, a, maxInbox, maxFindings);
    PurgeIsOneDeletion(y, a, maxInbox, maxFindings);
    ViewAfterDelete(x, a, gone);
    ViewAfterDelete(y, a, gone);
  }

  /** Purging one account is invisible to every other account. */
  lemma PurgeIsLocal(db: Db, a: Uuid, b: Uuid, maxInbox: int, maxFindings: int)
    requires Linked(db) && a != b
    ensures SameAccountView(db, PurgeOldRows(db, a, maxInbox, maxFindings), b)
  {
    var gone := Doomed(db, a, maxInbox, maxFindings);
    PurgeIsOneDeletion(db, a, maxInbox, maxFindings);
    ViewAfterDelete(db, b, gone);
    assert ActiveIds(db, b) !! gone;
    assert forall c | c in JoinedIds(db, b) :: db.classifications[c].email in ActiveIds(db, b);
  }

  lemma SameViewTransitive(x: Db, y: Db, z: Db, a: Uuid)
    requires SameAccountView(x, y, a) && SameAccountView(y, z, a)
    ensures SameAccountView(x, z, a)
  {
  }

  /** Half-way through purging `all` accounts of `start`, with `todo` still to go. */
  ghost predicate PurgedExcept(start: Db, now: Db, all: set<Uuid>, todo: set<Uuid>, maxInbox: int, maxFindings: int) {
    && (forall a | a in todo :: SameAccountView(start, now, a))
    && (forall a | a in all - todo :: SameAccountView(PurgeOldRows(start, a, maxInbox, maxFindings), now, a))
  }

  lemma PurgeOneMore(start: Db, now: Db, after: Db, all: set<Uuid>, todo: set<Uuid>, a: Uuid,
                     maxInbox: int, maxFindings: int)
    requires PurgedExcept(start, now, all, todo, maxInbox, maxFindings) && a in todo && WF(now)
    requires after == PurgeOldRows(now, a, maxInbox, maxFindings)
    ensures PurgedExcept(start, after, all, todo - {a}, maxInbox, maxFindings)
  {
    assert Linked(now);
    hide WF, Apply, SameAccountView;
    assert after == PurgeOldRows(now, a, maxInbox, maxFindings);
    SameViewSamePurge(start, now, a, maxInbox, maxFindings);
    forall b | b in todo - {a} ensures SameAccountView(start, after, b) {
      PurgeIsLocal(now, a, b, maxInbox, maxFindings);
      SameViewTransitive(start, now, after, b);
    }
    forall b | b in all - todo ensures SameAccountView(PurgeOldRows(start, b, maxInbox, maxFindings), after, b) {
      PurgeIsLocal(now, a, b, maxInbox, maxFindings);
      SameViewTransitive(PurgeOldRows(start, b, maxInbox, maxFindings), now, after, b);
    }
  }

  /** The first `n` of the two statements for an account. */
  function Executed(db: Db, a: Uuid, n: nat, maxInbox: int, maxFindings: int): Db {
    if n == 0 then db
    else if n == 1 then Apply(db, TrimInbox(a, maxInbox))
    else PurgeOldRows(db, a, maxInbox, maxFindings)
  }

  /** A run over accounts that stopped at `a` after `n` of its statements, with the accounts `todo` still to come. */
  ghost predicate StoppedAt(start: Db, after: Db, all: set<Uuid>, todo: set<Uuid>, a: Uuid, n: nat,
                            maxInbox: int, maxFindings: int) {
    && a in all && a !in todo && todo <= all
    && PurgedExcept(start, after, all - {a}, todo, maxInbox, maxFindings)
    && SameAccountView(Executed(start, a, n, maxInbox, maxFindings), after, a)
  }

  /** Stopping leaves the accounts before purged, the account itself as far as it got, and the others untouched. */
  lemma StoppedWithin(start: Db, now: Db, all: set<Uuid>, todo: set<Uuid>, a: Uuid, n: nat,
                      maxInbox: int, maxFindings: int)
    requires PurgedExcept(start, now, all, todo, maxInbox, maxFindings) && a in todo && todo <= all && WF(now)
    ensures StoppedAt(start, Executed(now, a, n, maxInbox, maxFindings), all, todo - {a}, a, n, maxInbox, maxFindings)
  {
    var after := Executed(now, a, n, maxInbox, maxFindings);
    ExecutedIsLocal(start, now, a, n, maxInbox, maxFindings);
    hide WF, Apply, SameAccountView, PurgeOldRows, Executed;
    forall b | b in todo - {a} ensures SameAccountView(start, after, b) {
      SameViewTransitive(start, now, after, b);
    }
    forall b | b in (all - {a}) - (todo - {a})
      ensures SameAccountView(PurgeOldRows(start, b, maxInbox, maxFindings), after, b)
    {
      assert b in all - todo;
      SameViewTransitive(PurgeOldRows(start, b, maxInbox, maxFindings), now, after, b);
    }
  }

  lemma ExecutedIsLocal(start: Db, now: Db, a: Uuid, n: nat, maxInbox: int, maxFindings: int)
    requires SameAccountView(start, now, a)
    ensures SameAccountView(Executed(start, a, n, maxInbox, maxFindings), Executed(now, a, n, maxInbox, maxFindings), a)
    ensures forall b | b != a && SameAccountView(now, now, b) ::
              SameAccountView(now, Executed(now, a, n, maxInbox, maxFindings), b)
  {
    assert Linked(now);
    hide SameAccountView, Apply, PurgeOldRows;
    if n == 1 {
      TrimIsLocal(start, now, a, maxInbox);
    } else if n > 1 {
      SameViewSamePurge(start, now, a, maxInbox, maxFindings);
      forall b | b != a ensures SameAccountView(now, PurgeOldRows(now, a, maxInbox, maxFindings), b) {
        PurgeIsLocal(now, a, b, maxInbox, maxFindings);
      }
    }
  }

  /** The first statement alone: local to its account, and determined by the account's view. */
  lemma TrimIsLocal(start: Db, now: Db, a: Uuid, maxInbox: int)
    requires SameAccountView(start, now, a)
    ensures SameAccountView(Apply(start, TrimInbox(a, maxInbox)), Apply(now, TrimInbox(a, maxInbox)), a)
    ensures forall b | b != a :: SameAccountView(now, Apply(now, TrimInbox(a, maxInbox)), b)
  {
    var gone := InboxOverflow(now, a, maxInbox);
    SameViewSameOverflow(start, now, a, maxInbox);
    ViewAfterDelete(start, a, gone);
    ViewAfterDelete(now, a, gone);
    forall b | b != a ensures SameAccountView(now, Apply(now, TrimInbox(a, maxInbox)), b) {
      ViewAfterDelete(now, b, gone);
      assert ActiveIds(now, b) !! gone;
      assert forall c | c in JoinedIds(now, b) :: now.classifications[c].email in ActiveIds(now, b);
    }
  }

  lemma SameViewSameOverflow(x: Db, y: Db, a: Uuid, maxInbox: int)
    requires SameAccountView(x, y, a)
    ensures InboxOverflow(x, a, maxInbox) == InboxOverflow(y, a, maxInbox)
  {
    assert forall id | id in InboxIds(x, a) :: id in ActiveIds(x, a) && InboxItem(x, id) == InboxItem(y, id);
    assert InboxItems(x, a) == InboxItems(y, a);
  }

  lemma NothingPurgedYet(db: Db, all: set<Uuid>, maxInbox: int, maxFindings: int)
    requires WF(db)
    ensures PurgedExcept(db, db, all, all, maxInbox, maxFindings)
  {
    forall a ensures SameAccountView(db, db, a) {
      SameViewReflexive(db, a);
    }
  }

  lemma SameViewReflexive(db: Db, a: Uuid)
    requires Linked(db)
    ensures SameAccountView(db, db, a)
  {
  }
}
