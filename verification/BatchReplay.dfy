/**
 * Gmail windows are applied as a batch: saves, then trash, then restorations, then deletions.
 * When does that leave the rows that replaying the records one at a time would leave?
 */
module BatchReplay {
  import opened Prelude
  import opened Store
  import opened SyncEngine
  import opened GmailHistory
  import Replay

  // ---------------------------------------------------------------- replaying record by record

  datatype Kind = Added | Deleted | Trashed | Restored

  datatype Event = Event(kind: Kind, id: string)

  function Tagged(kind: Kind, ids: seq<string>): seq<Event> {
    seq(|ids|, i requires 0 <= i < |ids| => Event(kind, ids[i]))
  }

  /** The events of a record in the order the record lists them. */
  function EventsOf(r: HistoryRecord): seq<Event> {
    Tagged(Added, r.added) + Tagged(Deleted, r.deleted)
    + Tagged(Trashed, TrashOrSpamIds(r.labelsAdded)) + Tagged(Restored, TrashOrSpamIds(r.labelsRemoved))
  }

  function Events(rs: seq<HistoryRecord>): seq<Event> {
    if rs == [] then [] else Events(rs[..|rs| - 1]) + EventsOf(rs[|rs| - 1])
  }

  function EventWrite(a: Uuid, e: Event, meta: string -> Metadata, now: int): Write {
    match e.kind
    case Added => SaveEmail(a, meta(e.id).ToIncoming(), now)
    case Deleted => DeleteEmails(ByMessage(a, e.id))
    case Trashed => UpdateEmails(ByMessage(a, e.id), Change.Trash(now))
    case Restored => UpdateEmails(ByMessage(a, e.id), Untrash)
  }

  function ReplayWrites(a: Uuid, es: seq<Event>, meta: string -> Metadata, now: int): seq<Write> {
    seq(|es|, i requires 0 <= i < |es| => EventWrite(a, es[i], meta, now))
  }

  /** What happened to one message, in order. */
  function KindsOf(es: seq<Event>, p: string): seq<Kind> {
    if es == [] then []
    else
      var last := es[|es| - 1];
      KindsOf(es[..|es| - 1], p) + if last.id == p then [last.kind] else []
  }

  function KindStep(o: Option<RowView>, k: Kind, m: Incoming): Option<RowView> {
    match k
    case Added => Some(SavedRow(o, m))
    case Deleted => None
    case Trashed => Flagged(o, true)
    case Restored => Flagged(o, false)
  }

  /** The row after replaying, and the row after the batch. */
  function ReplayedRow(o: Option<RowView>, ks: seq<Kind>, m: Incoming): Option<RowView> {
    if ks == [] then o else KindStep(ReplayedRow(o, ks[..|ks| - 1], m), ks[|ks| - 1], m)
  }

  function BatchedRow(o: Option<RowView>, ks: seq<Kind>, m: Incoming): Option<RowView> {
    var saved := if Added in ks then Some(SavedRow(o, m)) else o;
    var trashed := if Trashed in ks then Flagged(saved, true) else saved;
    var restored := if Restored in ks then Flagged(trashed, false) else trashed;
    if Deleted in ks then None else restored
  }

  // ---------------------------------------------------------------- the exact condition

  /** The last addition or deletion is a deletion. */
  predicate EndsDeleted(ks: seq<Kind>) {
    ks != [] &&
    match ks[|ks| - 1]
    case Deleted => true
    case Added => false
    case _ => EndsDeleted(ks[..|ks| - 1])
  }

  /** The last trash or restore event, if any: `true` for trash. */
  function LastFlag(ks: seq<Kind>): Option<bool> {
    if ks == [] then None
    else match ks[|ks| - 1]
         case Trashed => Some(true)
         case Restored => Some(false)
         case _ => LastFlag(ks[..|ks| - 1])
  }

  /** The same, counting only events after the first addition. */
  function FlagAfterAdd(ks: seq<Kind>): Option<bool> {
    if ks == [] then None
    else
      var init := ks[..|ks| - 1];
      match ks[|ks| - 1]
      case Trashed => if Added in init then Some(true) else None
      case Restored => if Added in init then Some(false) else None
      case _ => FlagAfterAdd(init)
  }

  /**
   * A deleted message is not added again afterwards; a restored one is not trashed again
   * afterwards; an added one that is only trashed is trashed at least once after its addition.
   */
  predicate Faithful(ks: seq<Kind>) {
    if Deleted in ks then EndsDeleted(ks)
    else
      && (Restored in ks ==> LastFlag(ks) == Some(false))
      && (Added in ks && Trashed in ks && Restored !in ks ==> FlagAfterAdd(ks).Some?)
  }

  function WithTrash(r: RowView, flag: Option<bool>): RowView {
    if flag.Some? then r.(trashed := flag.value) else r
  }

  lemma InInit(ks: seq<Kind>, k: Kind)
    requires ks != []
    ensures k in ks <==> k in ks[..|ks| - 1] || k == ks[|ks| - 1]
  {
    assert ks == ks[..|ks| - 1] + [ks[|ks| - 1]];
  }

  lemma {:induction false} DeletionsDecideExistence(o: Option<RowView>, ks: seq<Kind>, m: Incoming)
    ensures EndsDeleted(ks) ==> ReplayedRow(o, ks, m) == None
    ensures Deleted in ks && !EndsDeleted(ks) ==> ReplayedRow(o, ks, m).Some?
    ensures Added in ks && Deleted !in ks ==> ReplayedRow(o, ks, m).Some?
  {
    if ks != [] {
      DeletionsDecideExistence(o, ks[..|ks| - 1], m);
      InInit(ks, Deleted);
      InInit(ks, Added);
    }
  }

  lemma {:induction false} ReplayWithoutDeletion(o: Option<RowView>, ks: seq<Kind>, m: Incoming)
    requires Deleted !in ks
    ensures ReplayedRow(o, ks, m)
         == match o {
              case Some(r) => Some(WithTrash(if Added in ks then SavedRow(o, m) else r, LastFlag(ks)))
              case None => if Added in ks then Some(WithTrash(SavedRow(o, m), FlagAfterAdd(ks))) else None
            }
  {
    if ks != [] {
      InInit(ks, Deleted);
      InInit(ks, Added);
      ReplayWithoutDeletion(o, ks[..|ks| - 1], m);
    }
  }

  lemma {:induction false} FlagsAgree(ks: seq<Kind>)
    ensures LastFlag(ks).Some? <==> Trashed in ks || Restored in ks
    ensures FlagAfterAdd(ks).Some? ==> FlagAfterAdd(ks) == LastFlag(ks)
    ensures LastFlag(ks) == Some(true) ==> Trashed in ks
    ensures LastFlag(ks) == Some(false) ==> Restored in ks
  {
    if ks != [] {
      FlagsAgree(ks[..|ks| - 1]);
      InInit(ks, Trashed);
      InInit(ks, Restored);
    }
  }

  /**
   * For one message: the batch equals the replay from every possible starting row if and only
   * if the order of its events is faithful.
   */
  lemma BatchEqualsReplayIff(ks: seq<Kind>, m: Incoming)
    ensures (forall o :: BatchedRow(o, ks, m) == ReplayedRow(o, ks, m)) <==> Faithful(ks)
  {
    FlagsAgree(ks);
    if Faithful(ks) {
      forall o ensures BatchedRow(o, ks, m) == ReplayedRow(o, ks, m) {
        DeletionsDecideExistence(o, ks, m);
        if Deleted !in ks {
          ReplayWithoutDeletion(o, ks, m);
        }
      }
    } else {
      var shown := Some(RowView(None, None, 0, false, false, false, None));
      DeletionsDecideExistence(None, ks, m);
      if Deleted !in ks {
        ReplayWithoutDeletion(None, ks, m);
        ReplayWithoutDeletion(shown, ks, m);
      }
      assert || BatchedRow(None, ks, m) != ReplayedRow(None, ks, m)
             || BatchedRow(shown, ks, m) != ReplayedRow(shown, ks, m);
    }
  }

  /** In each message's own events additions come first, deletions last, and no trash follows a restore. */
  predicate WellOrdered(ks: seq<Kind>) {
    forall i, j | 0 <= i < j < |ks| ::
      && (ks[j] == Added ==> ks[i] == Added)
      && (ks[i] == Deleted ==> ks[j] == Deleted)
      && !(ks[i] == Restored && ks[j] == Trashed)
  }

  lemma {:induction false} WellOrderedIsFaithful(ks: seq<Kind>)
    requires WellOrdered(ks)
    ensures Faithful(ks)
  {
    if ks != [] {
      var init, last := ks[..|ks| - 1], ks[|ks| - 1];
      WellOrderedIsFaithful(init);
      FlagsAgree(ks);
      FlagsAgree(init);
      InInit(ks, Deleted);
      InInit(ks, Added);
      InInit(ks, Trashed);
      InInit(ks, Restored);
      if Deleted in ks {
        assert last == Deleted;
      }
    }
  }

  /** A message restored and then trashed again within one window is left out of the trash. */
  lemma RetrashedMessageReappears(r: RowView, m: Incoming)
    ensures ReplayedRow(Some(r), [Restored, Trashed], m) == Some(r.(trashed := true))
    ensures BatchedRow(Some(r), [Restored, Trashed], m) == Some(r.(trashed := false))
  {
    var ks := [Restored, Trashed];
    assert Added !in ks && Deleted !in ks && Restored in ks && ks[0] == Restored && ks[1] == Trashed;
    ReplayWithoutDeletion(Some(r), ks, m);
    assert LastFlag(ks) == Some(true);
  }

  // ---------------------------------------------------------------- from rows to stores

  lemma {:induction false} KindsConcat(xs: seq<Event>, ys: seq<Event>, p: string)
    ensures KindsOf(xs + ys, p) == KindsOf(xs, p) + KindsOf(ys, p)
  {
    if ys == [] {
      assert xs + ys == xs;
    } else {
      assert (xs + ys)[..|xs + ys| - 1] == xs + ys[..|ys| - 1];
      KindsConcat(xs, ys[..|ys| - 1], p);
    }
  }

  lemma {:induction false} KindsOfTagged(kind: Kind, ids: seq<string>, p: string, k: Kind)
    ensures k in KindsOf(Tagged(kind, ids), p) <==> k == kind && p in ids
  {
    if ids != [] {
      assert Tagged(kind, ids)[..|ids| - 1] == Tagged(kind, ids[..|ids| - 1]);
      KindsOfTagged(kind, ids[..|ids| - 1], p, k);
      assert ids == ids[..|ids| - 1] + [ids[|ids| - 1]];
    }
  }

  function Listed(c: Changes, k: Kind): seq<string> {
    match k
    case Added => c.added
    case Deleted => c.deleted
    case Trashed => c.trashed
    case Restored => c.restored
  }

  /** The gathered lists contain a message exactly when the window has such an event for it. */
  lemma {:induction false} GatherListsEvents(rs: seq<HistoryRecord>, p: string, k: Kind)
    ensures p in Listed(Gather(rs), k) <==> k in KindsOf(Events(rs), p)
  {
    if rs != [] {
      var init, r := rs[..|rs| - 1], rs[|rs| - 1];
      GatherListsEvents(init, p, k);
      var t, q := Tagged(Added, r.added), Tagged(Deleted, r.deleted);
      var u, v := Tagged(Trashed, TrashOrSpamIds(r.labelsAdded)), Tagged(Restored, TrashOrSpamIds(r.labelsRemoved));
      KindsConcat(Events(init), EventsOf(r), p);
      KindsConcat(t + q + u, v, p);
      KindsConcat(t + q, u, p);
      KindsConcat(t, q, p);
      KindsOfTagged(Added, r.added, p, k);
      KindsOfTagged(Deleted, r.deleted, p, k);
      KindsOfTagged(Trashed, TrashOrSpamIds(r.labelsAdded), p, k);
      KindsOfTagged(Restored, TrashOrSpamIds(r.labelsRemoved), p, k);
    }
  }

  lemma EventOnRow(o: Option<RowView>, a: Uuid, e: Event, meta: string -> Metadata, now: int, p: string)
    requires meta(e.id).id == e.id
    ensures RunRow(o, [EventWrite(a, e, meta, now)], a, p)
         == if e.id == p then KindStep(o, e.kind, meta(p).ToIncoming()) else o
  {
    var w := EventWrite(a, e, meta, now);
    assert RunRow(o, [w], a, p) == RunRow(RowStep(o, w, a, p), [], a, p);
  }

  lemma {:induction false} ReplayOnRow(o: Option<RowView>, a: Uuid, es: seq<Event>, meta: string -> Metadata, now: int,
                                       p: string)
    requires forall id :: meta(id).id == id
    ensures RunRow(o, ReplayWrites(a, es, meta, now), a, p) == ReplayedRow(o, KindsOf(es, p), meta(p).ToIncoming())
  {
    if es != [] {
      var init, last := es[..|es| - 1], es[|es| - 1];
      var w := EventWrite(a, last, meta, now);
      assert ReplayWrites(a, es, meta, now) == ReplayWrites(a, init, meta, now) + [w];
      RunRowConcat(o, ReplayWrites(a, init, meta, now), [w], a, p);
      ReplayOnRow(o, a, init, meta, now, p);
      var before := RunRow(o, ReplayWrites(a, init, meta, now), a, p);
      EventOnRow(before, a, last, meta, now, p);
      if last.id == p {
        var ks := KindsOf(es, p);
        assert ks[..|ks| - 1] == KindsOf(init, p);
      } else {
        assert KindsOf(es, p) == KindsOf(init, p);
      }
    }
  }

  /** Every new message hydrates, in any order. */
  ghost predicate AllHydrated(page: SyncPage, results: seq<Hydrated>, meta: string -> Metadata) {
    && (forall i | 0 <= i < |results| :: results[i].Ready? && results[i].meta == meta(results[i].meta.id))
    && (forall p :: p in page.newIds <==> exists i | 0 <= i < |results| :: Replay.Answers(results[i], p))
  }

  lemma {:induction false} SavedOnce(o: Option<RowView>, results: seq<Hydrated>, meta: string -> Metadata, p: string)
    requires forall i | 0 <= i < |results| :: results[i].Ready? && results[i].meta == meta(results[i].meta.id)
    ensures Replay.SavedAll(o, results, p)
         == if exists i | 0 <= i < |results| :: Replay.Answers(results[i], p)
            then Some(SavedRow(o, meta(p).ToIncoming())) else o
  {
    if results != [] {
      var init, last := results[..|results| - 1], results[|results| - 1];
      SavedOnce(o, init, meta, p);
      if i :| 0 <= i < |init| && Replay.Answers(init[i], p) {
        assert Replay.Answers(results[i], p);
      }
      if i :| 0 <= i < |results| && Replay.Answers(results[i], p) && i < |init| {
        assert Replay.Answers(init[i], p);
      }
    }
  }

  /** Which lists of the page name a message, in terms of its events. */
  lemma PageNames(rs: seq<HistoryRecord>, page: SyncPage, next: string, p: string)
    requires Reports(page, Gather(rs), next)
    ensures var ks := KindsOf(Events(rs), p);
            && (p in page.newIds <==> Added in ks && Deleted !in ks)
            && (p in page.deletedIds <==> Deleted in ks)
            && (p in page.trashedIds <==> Trashed in ks)
            && (p in page.restoredIds <==> Restored in ks)
  {
    hide KindsOf, Events, Gather;
    GatherListsEvents(rs, p, Added);
    GatherListsEvents(rs, p, Deleted);
    GatherListsEvents(rs, p, Trashed);
    GatherListsEvents(rs, p, Restored);
  }

  /** The page of a window acts on a message as the batch of its events. */
  lemma PageActsAsBatch(o: Option<RowView>, rs: seq<HistoryRecord>, page: SyncPage, next: string,
                        results: seq<Hydrated>, meta: string -> Metadata, p: string)
    requires Reports(page, Gather(rs), next) && AllHydrated(page, results, meta)
    ensures Replay.PassRow(o, page, results, p) == BatchedRow(o, KindsOf(Events(rs), p), meta(p).ToIncoming())
  {
    hide Reports, KindsOf, Events, Gather;
    SavedOnce(o, results, meta, p);
    hide Replay.SavedAll;
    PageNames(rs, page, next, p);
  }

  lemma ReplayWritesArePassWrites(a: Uuid, es: seq<Event>, meta: string -> Metadata, now: int, w: Write)
    requires w in ReplayWrites(a, es, meta, now)
    ensures IsPassWrite(w, a)
  {
  }

  lemma RowsOfBoth(db: Db, a: Uuid, rs: seq<HistoryRecord>, page: SyncPage, next: string,
                   results: seq<Hydrated>, meta: string -> Metadata, now: int, p: string)
    requires WF(db) && a in db.accounts
    requires Reports(page, Gather(rs), next)
    requires AllHydrated(page, results, meta) && forall id :: meta(id).id == id
    ensures Row(Run(db, PassWrites(a, page, results, now)), a, p)
         == BatchedRow(Row(db, a, p), KindsOf(Events(rs), p), meta(p).ToIncoming())
    ensures Row(Run(db, ReplayWrites(a, Events(rs), meta, now)), a, p)
         == ReplayedRow(Row(db, a, p), KindsOf(Events(rs), p), meta(p).ToIncoming())
  {
    hide WF, Run, PassWrites, ReplayWrites, Reports, AllHydrated;
    var pass, replay := PassWrites(a, page, results, now), ReplayWrites(a, Events(rs), meta, now);
    forall w | w in pass ensures IsPassWrite(w, a) {
      Replay.PassWritesArePassWrites(a, page, results, now, w);
    }
    forall w | w in replay ensures IsPassWrite(w, a) {
      ReplayWritesArePassWrites(a, Events(rs), meta, now, w);
    }
    RowAfterRun(db, pass, a, a, p);
    RowAfterRun(db, replay, a, a, p);
    var o := Row(db, a, p);
    Replay.PassOnRow(o, a, page, results, now, p);
    ReplayOnRow(o, a, Events(rs), meta, now, p);
    PageActsAsBatch(o, rs, page, next, results, meta, p);
  }

  /**
   * For each message of the account: from every well-formed store, applying the whole page leaves the row
   * that replaying the window's records one at a time leaves, if and only if the message's events in the
   * window are faithfully ordered.
   */
  lemma BatchEqualsReplayInEveryStoreIff(a: Uuid, rs: seq<HistoryRecord>, page: SyncPage, next: string,
                                         results: seq<Hydrated>, meta: string -> Metadata, now: int, p: string)
    requires Reports(page, Gather(rs), next)
    requires AllHydrated(page, results, meta) && forall id :: meta(id).id == id
    ensures SameInEveryStore(a, PassWrites(a, page, results, now), ReplayWrites(a, Events(rs), meta, now), p)
       <==> Faithful(KindsOf(Events(rs), p))
  {
    var ks, m := KindsOf(Events(rs), p), meta(p).ToIncoming();
    BatchEqualsReplayIff(ks, m);
    hide WF, Run, PassWrites, ReplayWrites, Reports, AllHydrated, Faithful, BatchedRow, ReplayedRow, KindsOf;
    if Faithful(ks) {
      forall db | WF(db) && a in db.accounts
        ensures Row(Run(db, PassWrites(a, page, results, now)), a, p)
             == Row(Run(db, ReplayWrites(a, Events(rs), meta, now)), a, p)
      {
        RowsOfBoth(db, a, rs, page, next, results, meta, now, p);
      }
    } else {
      var o :| BatchedRow(o, ks, m) != ReplayedRow(o, ks, m);
      StoreWithHasRow(a, p, o);
      RowsOfBoth(StoreWith(a, p, o), a, rs, page, next, results, meta, now, p);
    }
  }

  /** Rows of other accounts are untouched by both, whatever the order. */
  lemma OtherAccountsAgree(db: Db, a: Uuid, rs: seq<HistoryRecord>, page: SyncPage, results: seq<Hydrated>,
                           meta: string -> Metadata, now: int, b: Uuid, p: string)
    requires WF(db) && a in db.accounts && a != b
    ensures Row(Run(db, PassWrites(a, page, results, now)), b, p) == Row(db, b, p)
    ensures Row(Run(db, ReplayWrites(a, Events(rs), meta, now)), b, p) == Row(db, b, p)
  {
    hide WF, Run, PassWrites, ReplayWrites;
    var pass, replay := PassWrites(a, page, results, now), ReplayWrites(a, Events(rs), meta, now);
    forall w | w in pass ensures IsPassWrite(w, a) {
      Replay.PassWritesArePassWrites(a, page, results, now, w);
    }
    forall w | w in replay ensures IsPassWrite(w, a) {
      ReplayWritesArePassWrites(a, Events(rs), meta, now, w);
    }
    RowAfterRun(db, pass, a, b, p);
    RowAfterRun(db, replay, a, b, p);
    Replay.OtherAccountsUntouched(Row(db, b, p), pass, a, b, p);
    Replay.OtherAccountsUntouched(Row(db, b, p), replay, a, b, p);
  }

  /** A faithfully ordered message ends with the same row either way, and so do all other accounts' messages. */
  lemma BatchEqualsReplay(db: Db, a: Uuid, rs: seq<HistoryRecord>, page: SyncPage, next: string,
                          results: seq<Hydrated>, meta: string -> Metadata, now: int, b: Uuid, p: string)
    requires WF(db) && a in db.accounts
    requires Reports(page, Gather(rs), next)
    requires AllHydrated(page, results, meta) && forall id :: meta(id).id == id
    requires b == a ==> Faithful(KindsOf(Events(rs), p))
    ensures Row(Run(db, PassWrites(a, page, results, now)), b, p)
         == Row(Run(db, ReplayWrites(a, Events(rs), meta, now)), b, p)
  {
    hide WF, Run, PassWrites, ReplayWrites, Reports, AllHydrated, Faithful;
    if a != b {
      OtherAccountsAgree(db, a, rs, page, results, meta, now, b, p);
    } else {
      RowsOfBoth(db, a, rs, page, next, results, meta, now, p);
      BatchEqualsReplayIff(KindsOf(Events(rs), p), meta(p).ToIncoming());
    }
  }

  // ---------------------------------------------------------------- a window that differs

  /** One message moved out of the trash and then back into it. */
  function OutAndBack(): seq<HistoryRecord> {
    [HistoryRecord([], [], [], [LabelChange("m", ["TRASH"])]), HistoryRecord([], [], [LabelChange("m", ["TRASH"])], [])]
  }

  lemma OutAndBackGathered()
    ensures Gather(OutAndBack()) == Changes([], [], ["m"], ["m"])
    ensures Events(OutAndBack()) == [Event(Restored, "m"), Event(Trashed, "m")]
  {
    var rs, c := OutAndBack(), LabelChange("m", ["TRASH"]);
    assert TrashOrSpamIds([]) == [] && TrashOrSpamIds([c]) == ["m"] by {
      assert [c][..0] == [] && "TRASH" in c.labels;
    }
    hide TrashOrSpamIds;
    assert rs[..1] == [rs[0]] && rs[..1][..0] == [];
    assert Gather(rs[..1]) == Changes([], [], [], ["m"]);
    assert Events(rs[..1]) == [Event(Restored, "m")];
  }

  lemma OutAndBackEvents()
    ensures KindsOf(Events(OutAndBack()), "m") == [Restored, Trashed]
  {
    OutAndBackGathered();
    hide OutAndBack, Events;
    var es := Events(OutAndBack());
    assert es[..1] == [Event(Restored, "m")] && es[..1][..0] == [];
  }

  /** The page of that window leaves the message outside the trash; its records leave it in the trash. */
  lemma OutAndBackDiffers(db: Db, a: Uuid, next: string, meta: string -> Metadata, now: int)
    requires WF(db) && a in db.accounts && Row(db, a, "m").Some?
    requires forall id :: meta(id).id == id
    ensures var page, r := SyncPage([], ["m"], [], ["m"], next), Row(db, a, "m").value;
            && Reports(page, Gather(OutAndBack()), next)
            && Row(Run(db, PassWrites(a, page, [], now)), a, "m") == Some(r.(trashed := false))
            && Row(Run(db, ReplayWrites(a, Events(OutAndBack()), meta, now)), a, "m") == Some(r.(trashed := true))
  {
    var page, r := SyncPage([], ["m"], [], ["m"], next), Row(db, a, "m").value;
    OutAndBackGathered();
    OutAndBackEvents();
    RowsOfBoth(db, a, OutAndBack(), page, next, [], meta, now, "m");
    RetrashedMessageReappears(r, meta("m").ToIncoming());
  }
}
