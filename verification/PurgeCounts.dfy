/** How many rows a purge removes of each kind, and when the findings limit is used up. */
module PurgeCounts {
  import opened Prelude
  import opened TopK
  import opened Store
  import opened Purge

  // ---------------------------------------------------------------- the two counters

  /** The emails that are gone, findings or not. */
  function RemovedOf(before: Db, after: Db, finding: bool): set<Uuid> {
    set id | id in before.emails && id !in after.emails && IsFinding(before, id) == finding
  }

  /** The first statement removes only unclassified mail, the second only findings. */
  lemma EachStatementItsKind(db: Db, a: Uuid, maxInbox: int, maxFindings: int)
    ensures var over := InboxOverflow(db, a, maxInbox);
            var mid := DeleteRows(db, over);
            var after := PurgeOldRows(db, a, maxInbox, maxFindings);
            && RemovedOf(db, after, false) == over
            && RemovedOf(db, after, true) == FindingsOverflow(mid, a, maxFindings)
  {
    var over := InboxOverflow(db, a, maxInbox);
    var mid := DeleteRows(db, over);
    var late := FindingsOverflow(mid, a, maxFindings);
    assert PurgeOldRows(db, a, maxInbox, maxFindings) == DeleteRows(mid, late);
    hide PurgeOldRows;
    forall id | id in late ensures IsFinding(db, id) && id in db.emails && id !in over {
      var c :| c in mid.classifications && mid.classifications[c].email == id;
      assert c in db.classifications && db.classifications[c].email == id;
    }
    hide KeptFinding, FindingsOverflow;
    assert forall id | id in over :: !IsFinding(db, id);
  }

  /** Counting step by step counts every removed row once. */
  lemma RemovedAddsUp(start: Db, gone: set<Uuid>, more: set<Uuid>, finding: bool)
    requires Linked(start)
    ensures var mid := DeleteRows(start, gone);
            var after := DeleteRows(mid, more);
            |RemovedOf(start, after, finding)| == |RemovedOf(start, mid, finding)| + |RemovedOf(mid, after, finding)|
  {
    var mid := DeleteRows(start, gone);
    var after := DeleteRows(mid, more);
    forall id | id in mid.emails ensures IsFinding(mid, id) == IsFinding(start, id) {
      if c :| c in start.classifications && start.classifications[c].email == id {
        assert c in mid.classifications && mid.classifications[c] == start.classifications[c];
      }
    }
    hide IsFinding, DeleteRows;
    var early, late := RemovedOf(start, mid, finding), RemovedOf(mid, after, finding);
    assert mid.emails.Keys <= start.emails.Keys && after.emails.Keys <= mid.emails.Keys by {
      KeysShrink(start, gone);
      KeysShrink(mid, more);
    }
    assert RemovedOf(start, after, finding) == early + late;
    assert early * late == {};
  }

  /** The running totals are the rows removed so far, kind by kind, and only rows were removed. */
  ghost predicate Tally(start: Db, now: Db, inbox: nat, findings: nat) {
    && OnlyDeletions(start, now)
    && inbox == |RemovedOf(start, now, false)|
    && findings == |RemovedOf(start, now, true)|
  }

  lemma TallyNothing(db: Db)
    ensures Tally(db, db, 0, 0) && OnlyDeletions(db, db)
  {
    assert db.emails - {} == db.emails;
    assert WithoutEmails(db.classifications, {}) == db.classifications;
    assert db == DeleteRows(db, {});
    assert RemovedOf(db, db, false) == {} == RemovedOf(db, db, true);
  }

  lemma TallyOneMore(start: Db, mid: Db, after: Db, a: Uuid, maxInbox: int, maxFindings: int,
                     inbox: nat, findings: nat, moreInbox: nat, moreFindings: nat)
    requires WF(start) && Tally(start, mid, inbox, findings)
    requires after == PurgeOldRows(mid, a, maxInbox, maxFindings)
    requires moreInbox == |RemovedOf(mid, after, false)| && moreFindings == |RemovedOf(mid, after, true)|
    ensures Tally(start, after, inbox + moreInbox, findings + moreFindings)
  {
    hide WF, Apply, RemovedOf, Doomed, DeleteRows, Linked;
    WellFormedIsLinked(start);
    assert after == PurgeOldRows(mid, a, maxInbox, maxFindings);
    hide PurgeOldRows;
    var gone :| mid == DeleteRows(start, gone);
    var more := Doomed(mid, a, maxInbox, maxFindings);
    PurgeIsOneDeletion(mid, a, maxInbox, maxFindings);
    MoreDeletions(start, mid, more);
    RemovedAddsUp(start, gone, more, false);
    RemovedAddsUp(start, gone, more, true);
  }

  lemma WellFormedIsLinked(db: Db)
    requires WF(db)
    ensures Linked(db)
  {
  }

  lemma KeysShrink(db: Db, ids: set<Uuid>)
    ensures DeleteRows(db, ids).emails.Keys <= db.emails.Keys
  {
  }

  // ---------------------------------------------------------------- the findings limit

  function OwnersOf(db: Db, rows: set<Item>): set<Uuid> {
    set it | it in rows && it.id in db.classifications :: db.classifications[it.id].email
  }

  /** The selected rows of the joined query belong to different emails. */
  ghost predicate DistinctOwners(db: Db, rows: set<Item>) {
    forall x, y | x in rows && y in rows && x.id in db.classifications && y.id in db.classifications
                  && db.classifications[x.id].email == db.classifications[y.id].email :: x == y
  }

  lemma {:induction false} OwnersCount(db: Db, rows: set<Item>)
    requires forall it | it in rows :: it.id in db.classifications
    ensures |OwnersOf(db, rows)| <= |rows|
    ensures |OwnersOf(db, rows)| == |rows| <==> DistinctOwners(db, rows)
    decreases |rows|
  {
    if x :| x in rows {
      var rest := rows - {x};
      var owner := db.classifications[x.id].email;
      OwnersCount(db, rest);
      assert OwnersOf(db, rows) == OwnersOf(db, rest) + {owner};
      if owner in OwnersOf(db, rest) {
        var y :| y in rest && db.classifications[y.id].email == owner;
        assert !DistinctOwners(db, rows);
      } else {
        assert DistinctOwners(db, rest) ==> DistinctOwners(db, rows);
      }
    }
  }

  lemma KeptAreOwners(db: Db, a: Uuid, k: int)
    requires Linked(db)
    ensures FindingIds(db, a) - FindingsOverflow(db, a, k) == OwnersOf(db, Top(JoinedItems(db, a), k))
  {
    var rows := Top(JoinedItems(db, a), k);
    forall id ensures id in FindingIds(db, a) - FindingsOverflow(db, a, k) <==> id in OwnersOf(db, rows) {
      if it :| it in rows && it.id in db.classifications && db.classifications[it.id].email == id {
        JoinedItemIn(db, a, it);
      }
      if c :| c in JoinedIds(db, a) && db.classifications[c].email == id && JoinedItem(db, c) in rows {
        assert JoinedItem(db, c).id == c;
      }
    }
  }

  /** When some finding is dropped, the query selected as many rows as it may. */
  lemma FullSelection(db: Db, a: Uuid, k: nat)
    requires FindingsOverflow(db, a, k) != {}
    ensures |Top(JoinedItems(db, a), k)| == k
  {
    var rows := JoinedItems(db, a);
    TopSize(rows, k);
    if |Top(rows, k)| < k {
      SubsetSize(Top(rows, k), rows);
    }
  }

  /**
   * The findings kept are the min(n, limit) the limit allows if and only if every finding owns one of
   * the first `k` joined rows or these rows belong to different emails. An email matched twice uses up
   * two places.
   */
  lemma FindingsLimitIsUsedUpIff(db: Db, a: Uuid, maxInbox: int, k: nat)
    requires Linked(db)
    ensures |FindingIds(PurgeOldRows(db, a, maxInbox, k), a)| == Min(|FindingIds(db, a)|, k)
       <==> || (forall id | id in FindingIds(db, a) :: KeptFinding(db, a, k, id))
            || DistinctOwners(db, Top(JoinedItems(db, a), k))
  {
    var rows, kept := Top(JoinedItems(db, a), k), FindingIds(PurgeOldRows(db, a, maxInbox, k), a);
    KeptFindings(db, a, maxInbox, k);
    assert FindingsOverflow(db, a, k) == {} <==> forall id | id in FindingIds(db, a) :: KeptFinding(db, a, k, id) by {
      assert forall id :: id in FindingsOverflow(db, a, k) <==> id in FindingIds(db, a) && !KeptFinding(db, a, k, id);
    }
    hide PurgeOldRows, FindingIds, FindingsOverflow, KeptFinding, Linked, DistinctOwners, OwnersOf, Top, JoinedItems;
    if FindingsOverflow(db, a, k) != {} {
      FullSelection(db, a, k);
      SomethingDropped(db, a, k);
      assert |kept| < |FindingIds(db, a)|;
    } else {
      assert kept == FindingIds(db, a);
    }
  }

  lemma KeptFindings(db: Db, a: Uuid, maxInbox: int, k: nat)
    requires Linked(db)
    ensures var rows, kept := Top(JoinedItems(db, a), k), FindingIds(PurgeOldRows(db, a, maxInbox, k), a);
            && kept == FindingIds(db, a) - FindingsOverflow(db, a, k)
            && |kept| <= |rows| && |kept| <= k
            && (|kept| == |rows| <==> DistinctOwners(db, rows))
  {
    var rows := Top(JoinedItems(db, a), k);
    Survivors(db, a, maxInbox, k);
    FindingsMeetTheLimit(db, a, maxInbox, k);
    KeptAreOwners(db, a, k);
    forall it | it in rows ensures it.id in db.classifications {
      JoinedItemIn(db, a, it);
    }
    hide PurgeOldRows, FindingIds, FindingsOverflow, Linked, DistinctOwners, OwnersOf, Top, JoinedItems;
    OwnersCount(db, rows);
  }

  lemma SomethingDropped(db: Db, a: Uuid, k: int)
    ensures FindingsOverflow(db, a, k) <= FindingIds(db, a)
    ensures FindingsOverflow(db, a, k) != {} ==> |FindingIds(db, a) - FindingsOverflow(db, a, k)| < |FindingIds(db, a)|
  {
    SubsetSize(FindingIds(db, a) - FindingsOverflow(db, a, k), FindingIds(db, a));
  }

  // ---------------------------------------------------------------- a finding lost to a duplicate

  function TwiceMatched(): Db {
    var newer := Email(0, "new", None, None, 20, false, false, false, None, None, 0);
    var older := newer.(messageId := "old", receivedAt := 10);
    Db(map[0 := Account(Gmail, "a@b", None, None, None, 0)],
       map[1 := Criterion("x", "", true, 0), 2 := Criterion("y", "", true, 0)],
       map[3 := newer, 4 := older],
       map[5 := Classification(3, 1, None, 0), 6 := Classification(3, 2, None, 0), 7 := Classification(4, 1, None, 0)],
       8)
  }

  const FIRST := Item(20, 5)
  const SECOND := Item(20, 6)
  const THIRD := Item(10, 7)

  lemma RowsOfTwiceMatched()
    ensures Linked(TwiceMatched()) && FindingIds(TwiceMatched(), 0) == {3, 4}
    ensures JoinedIds(TwiceMatched(), 0) == {5, 6, 7}
    ensures JoinedItem(TwiceMatched(), 5) == FIRST && JoinedItem(TwiceMatched(), 6) == SECOND
    ensures JoinedItem(TwiceMatched(), 7) == THIRD
    ensures JoinedItems(TwiceMatched(), 0) == {FIRST, SECOND, THIRD}
  {
    var db := TwiceMatched();
    assert 5 in db.classifications && 7 in db.classifications;
    assert IsFinding(db, 3) && IsFinding(db, 4);
    assert JoinedIds(db, 0) == {5, 6, 7};
    assert JoinedItem(db, 5) == FIRST && JoinedItem(db, 6) == SECOND && JoinedItem(db, 7) == THIRD;
  }

  lemma FirstTwo()
    ensures Top({FIRST, SECOND, THIRD}, 2) == {FIRST, SECOND}
  {
    var rows := {FIRST, SECOND, THIRD};
    assert Preds(rows, FIRST) == {} && Preds(rows, SECOND) == {FIRST} && Preds(rows, THIRD) == {FIRST, SECOND};
  }

  /** Two findings, room for two, and still one is purged: the newer one was matched twice. */
  lemma DuplicateMatchCostsAFinding()
    ensures var db := TwiceMatched();
            && Linked(db) && FindingIds(db, 0) == {3, 4}
            && FindingIds(PurgeOldRows(db, 0, 2, 2), 0) == {3}
  {
    var db := TwiceMatched();
    hide *;
    RowsOfTwiceMatched();
    FirstTwo();
    Survivors(db, 0, 2, 2);
    KeptAreOwners(db, 0, 2);
    OneOwner();
  }

  lemma OneOwner()
    ensures OwnersOf(TwiceMatched(), {FIRST, SECOND}) == {3}
  {
    assert FIRST.id in TwiceMatched().classifications;
  }
}
