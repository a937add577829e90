/**
 * IMAP over whole runs: server appends and expunges interleave with discovery, with passes
 * that fail anywhere, and with every other use of the store. Within one UIDVALIDITY epoch every
 * message at or below the stored cursor was saved, was expunged, or was missing from an answer.
 */
module ImapNoLoss {
  import opened Prelude
  import opened Text
  import opened Store
  import opened StorageHandle
  import opened SyncEngine
  import opened Engine
  import opened Imap
  import Replay

  /** Section 2.3.1.1 of RFC 3501: UIDs are assigned in strictly ascending order. */
  datatype Server = Server(validity: nat, issued: set<nat>, present: set<nat>)

  /** A discovered page that has not been applied yet; it claims everything from `base` to `next`. */
  datatype Pending = Pending(page: SyncPage, base: nat, next: nat)

  /**
   * `saved` holds the UIDs of this epoch saved at least once, `missed` those that a finished pass had
   * listed and got no answer for; `floor` is the least UID the baseline of the stored cursor covers.
   */
  datatype World = World(
    server: Server,
    db: Db,
    saved: set<nat>,
    missed: set<nat>,
    floor: nat,
    pending: Option<Pending>)

  /** `fault` is that of clearing an expired cursor; `done` statements of a commit are executed. */
  datatype Step =
    | Append(uid: nat)
    | Expunge(uid: nat)
    | Discover(maxResults: nat, fault: Fault)
    | Commit(fetches: seq<Fetch>, done: nat, now: int)
    | Abandon
    | OtherWrite(w: Write)

  // ---------------------------------------------------------------- identifiers and UIDs

  predicate MentionsUid(fetches: seq<Fetch>, u: nat) {
    exists i | 0 <= i < |fetches| :: fetches[i].uid == Some(u)
  }

  /** Different UIDs have different texts, so an item answers for its own UID only. */
  lemma MentionsItsOwnUid(fetches: seq<Fetch>, u: nat)
    ensures Mentions(fetches, Decimal(u)) <==> MentionsUid(fetches, u)
  {
    if i :| 0 <= i < |fetches| && fetches[i].uid.Some? && Decimal(fetches[i].uid.value) == Decimal(u) {
      DecimalInjective(fetches[i].uid.value, u);
    }
  }

  /** The assigned UIDs a page lists as new. */
  function ListedUids(s: Server, page: SyncPage): set<nat> {
    set u | u in s.issued && Decimal(u) in page.newIds
  }

  function SavedIds(a: Uuid, ws: seq<Write>): set<string> {
    set w | w in ws && w.SaveEmail? && w.account == a :: w.incoming.messageId
  }

  function SavedUids(s: Server, a: Uuid, ws: seq<Write>): set<nat> {
    set u | u in s.issued && Decimal(u) in SavedIds(a, ws)
  }

  function MissedUids(s: Server, page: SyncPage, fetches: seq<Fetch>): set<nat> {
    set u | u in ListedUids(s, page) && !MentionsUid(fetches, u)
  }

  // ---------------------------------------------------------------- steps

  function CursorOf(db: Db, a: Uuid): Option<string> {
    if a in db.accounts then db.accounts[a].cursor else None
  }

  function Box(s: Server): Mailbox {
    Mailbox(Some(s.validity), s.present)
  }

  ghost function Provider(s: Server, cursor: Option<string>, maxResults: nat): Discovery {
    Discovery(if cursor.Some? then IncrementalPage(cursor.value, Box(s)) else Err(CursorExpired),
              Ok(InitialPage(Box(s), maxResults)))
  }

  /** The least UID an initial listing reaches down to. */
  ghost function InitialBase(uids: set<nat>, maxResults: nat): nat {
    if |uids| <= maxResults then 0
    else if maxResults == 0 then MaxOf(uids) + 1
    else Descending(uids)[maxResults - 1]
  }

  ghost function DiscoveredPage(w: World, a: Uuid, maxResults: nat): Pending {
    var cursor := CursorOf(w.db, a);
    var found := Fetched(cursor, Provider(w.server, cursor, maxResults)).value;
    if found.isInitial then Pending(found.page, InitialBase(w.server.present, maxResults), Highest(w.server.present, 0))
    else
      var last := ParseCursor(cursor.value).value.1;
      Pending(found.page, w.floor, Highest(Above(w.server.present, last), last))
  }

  /** The engine asks for nothing when the page lists nothing new. */
  function Answers(page: SyncPage, fetches: seq<Fetch>): seq<Hydrated> {
    AnswersFor(fetches, page.newIds)
  }

  function CommitWrites(a: Uuid, page: SyncPage, fetches: seq<Fetch>, now: int): seq<Write> {
    PassWrites(a, page, Answers(page, fetches), now)
  }

  function Upto<T>(ws: seq<T>, n: nat): seq<T> {
    ws[..Min(n, |ws|)]
  }

  ghost predicate Enabled(w: World, a: Uuid, step: Step) {
    match step
    case Append(u) => 0 < u < U32_BOUND && forall v | v in w.server.issued :: v < u
    case Expunge(_) => true
    case Discover(_, _) => w.pending.None?
    case Commit(_, _, _) => w.pending.Some?
    case Abandon => true
    case OtherWrite(x) => a in Apply(w.db, x).accounts && CursorOf(Apply(w.db, x), a) == CursorOf(w.db, a)
  }

  ghost function Next(w: World, a: Uuid, step: Step): World {
    match step
    case Append(u) => w.(server := w.server.(issued := w.server.issued + {u}, present := w.server.present + {u}))
    case Expunge(u) => w.(server := w.server.(present := w.server.present - {u}))
    case Discover(k, fault) =>
      var cursor := CursorOf(w.db, a);
      w.(db := Run(w.db, Tried(FetchWrites(a, cursor, Provider(w.server, cursor, k)), [fault])),
         pending := Some(DiscoveredPage(w, a, k)))
    case Commit(fetches, done, now) => if w.pending.None? then w else Committed(w, a, fetches, done, now)
    case Abandon => w.(pending := None)
    case OtherWrite(x) => w.(db := Apply(w.db, x))
  }

  ghost function Committed(w: World, a: Uuid, fetches: seq<Fetch>, done: nat, now: int): World
    requires w.pending.Some?
  {
    var p := w.pending.value;
    var ws := CommitWrites(a, p.page, fetches, now);
    w.(db := Run(w.db, Upto(ws, done)),
       saved := w.saved + SavedUids(w.server, a, Upto(ws, done)),
       missed := if done >= |ws| then w.missed + MissedUids(w.server, p.page, fetches) else w.missed,
       floor := if done >= |ws| then p.base else w.floor,
       pending := None)
  }

  /** Steps that are not enabled do not happen. */
  ghost function RunWorld(w: World, a: Uuid, steps: seq<Step>): World
    decreases |steps|
  {
    if steps == [] then w
    else RunWorld(if Enabled(w, a, steps[0]) then Next(w, a, steps[0]) else w, a, steps[1..])
  }

  // ---------------------------------------------------------------- the invariant

  /** Every message still on the server with a UID in the range is accounted for. */
  ghost predicate Covered(s: Server, lo: nat, hi: nat, have: set<nat>) {
    forall u | u in s.present && lo <= u <= hi :: u in have
  }

  ghost predicate Reached(s: Server, uid: nat) {
    uid == 0 || uid in s.issued
  }

  ghost predicate ServerOk(s: Server) {
    && s.validity < U32_BOUND
    && s.present <= s.issued
    && (forall u | u in s.issued :: 0 < u < U32_BOUND)
  }

  /** The stored cursor belongs to this epoch and stands at `last`. */
  predicate StandsAt(w: World, a: Uuid, last: nat) {
    CursorOf(w.db, a).Some? && ParseCursor(CursorOf(w.db, a).value) == Some((w.server.validity, last))
  }

  ghost predicate CursorOk(w: World, a: Uuid) {
    forall last :: StandsAt(w, a, last) ==>
      Reached(w.server, last) && Covered(w.server, w.floor, last, w.saved + w.missed)
  }

  ghost predicate PendingOk(w: World, p: Pending) {
    && p.page.nextCursor == FormatCursor(w.server.validity, p.next)
    && Reached(w.server, p.next)
    && Covered(w.server, p.base, p.next, w.saved + w.missed + ListedUids(w.server, p.page))
  }

  ghost predicate Inv(w: World, a: Uuid) {
    && WF(w.db) && a in w.db.accounts && ServerOk(w.server)
    && w.missed <= w.server.issued
    && CursorOk(w, a)
    && (w.pending.Some? ==> PendingOk(w, w.pending.value))
  }

  /** A mailbox whose epoch has just begun for this account: nothing saved, no cursor of this epoch. */
  ghost predicate Fresh(w: World, a: Uuid) {
    && WF(w.db) && a in w.db.accounts && ServerOk(w.server)
    && w.pending.None? && w.saved == {} && w.missed == {}
    && forall last :: !StandsAt(w, a, last)
  }

  // ---------------------------------------------------------------- each step keeps it

  lemma AppendKeepsInv(w: World, a: Uuid, u: nat)
    requires Inv(w, a) && Enabled(w, a, Append(u))
    ensures Inv(Next(w, a, Append(u)), a)
  {
    hide WF, ParseCursor, FormatCursor;
    var after := Next(w, a, Append(u));
    forall last | StandsAt(after, a, last)
      ensures Reached(after.server, last) && Covered(after.server, w.floor, last, w.saved + w.missed)
    {
      assert StandsAt(w, a, last);
    }
    if w.pending.Some? {
      assert ListedUids(w.server, w.pending.value.page) <= ListedUids(after.server, w.pending.value.page);
    }
  }

  lemma ExpungeKeepsInv(w: World, a: Uuid, u: nat)
    requires Inv(w, a)
    ensures Inv(Next(w, a, Expunge(u)), a)
  {
    hide WF, ParseCursor, FormatCursor;
    var after := Next(w, a, Expunge(u));
    assert forall last :: StandsAt(after, a, last) ==> StandsAt(w, a, last);
    if w.pending.Some? {
      assert ListedUids(after.server, w.pending.value.page) == ListedUids(w.server, w.pending.value.page);
    }
  }

  lemma OtherWriteKeepsInv(w: World, a: Uuid, x: Write)
    requires Inv(w, a) && Enabled(w, a, OtherWrite(x))
    ensures Inv(Next(w, a, OtherWrite(x)), a)
  {
    ApplyOk(w.db, x);
    hide WF, Apply, ParseCursor, FormatCursor;
    var after := Next(w, a, OtherWrite(x));
    assert forall last :: StandsAt(after, a, last) ==> StandsAt(w, a, last);
  }

  lemma AbandonKeepsInv(w: World, a: Uuid)
    requires Inv(w, a)
    ensures Inv(w.(pending := None), a)
  {
    hide WF, ParseCursor, FormatCursor;
    assert forall last :: StandsAt(w.(pending := None), a, last) ==> StandsAt(w, a, last);
  }

  lemma InTexts(q: seq<nat>, u: nat)
    requires u in q
    ensures Decimal(u) in Texts(q)
  {
    var i :| 0 <= i < |q| && q[i] == u;
    assert Texts(q)[i] == Decimal(u);
  }

  /** An initial listing names every present message from its base up. */
  lemma InitialCovers(s: Server, k: nat, u: nat)
    requires u in s.present && u >= InitialBase(s.present, k)
    ensures Decimal(u) in InitialPage(Box(s), k).newIds
  {
    var q := Descending(s.present);
    var n := Min(|s.present|, k);
    DescendingElements(s.present);
    DescendingOrder(s.present);
    var j :| 0 <= j < |q| && q[j] == u;
    assert j < n;
    assert q[..n][j] == u;
    InTexts(q[..n], u);
  }

  lemma IncrementalCovers(s: Server, last: nat, u: nat)
    requires u in s.present && u > last
    ensures Decimal(u) in Texts(Descending(Above(s.present, last)))
  {
    DescendingElements(Above(s.present, last));
    InTexts(Descending(Above(s.present, last)), u);
  }

  lemma DiscoverKeepsInv(w: World, a: Uuid, k: nat, fault: Fault)
    requires Inv(w, a) && w.pending.None?
    ensures Inv(Next(w, a, Discover(k, fault)), a)
  {
    var after := Next(w, a, Discover(k, fault));
    ClearingLeavesNoCursor(w.db, a, Provider(w.server, CursorOf(w.db, a), k), fault);
    DiscoveredPageIsOk(w, a, k);
    hide WF, ParseCursor, FormatCursor, Texts, Descending, Run, Tried, DiscoveredPage;
    assert CursorOf(after.db, a) == None || CursorOf(after.db, a) == CursorOf(w.db, a);
    assert forall last :: StandsAt(after, a, last) ==> StandsAt(w, a, last);
  }

  /** Whether or not the clearing succeeds, the cursor is gone or as before. */
  lemma ClearingLeavesNoCursor(db: Db, a: Uuid, d: Discovery, fault: Fault)
    requires WF(db) && a in db.accounts
    ensures var after := Run(db, Tried(FetchWrites(a, CursorOf(db, a), d), [fault]));
            && WF(after) && a in after.accounts
            && (CursorOf(after, a) == None || CursorOf(after, a) == CursorOf(db, a))
  {
    var ws := FetchWrites(a, CursorOf(db, a), d);
    if Expired(CursorOf(db, a), d) {
      ApplyOk(db, ClearCursor(a));
      assert [ClearCursor(a)][1..] == [] && [ClearCursor(a)] + [] == [ClearCursor(a)];
      assert Tried(ws, [fault]) == if fault.Refused? then [] else [ClearCursor(a)];
      RunNothing(db);
      RunOneMore(db, [], ClearCursor(a));
      assert [] + [ClearCursor(a)] == [ClearCursor(a)];
    }
  }

  lemma DiscoveredPageIsOk(w: World, a: Uuid, k: nat)
    requires Inv(w, a) && w.pending.None?
    ensures PendingOk(w, DiscoveredPage(w, a, k))
  {
    hide WF, FormatCursor, Descending, Texts;
    var cursor := CursorOf(w.db, a);
    var p := DiscoveredPage(w, a, k);
    var found := Fetched(cursor, Provider(w.server, cursor, k)).value;
    var have := w.saved + w.missed + ListedUids(w.server, p.page);
    if found.isInitial {
      assert p.page == InitialPage(Box(w.server), k);
      forall u | u in w.server.present && p.base <= u <= p.next ensures u in have {
        InitialCovers(w.server, k, u);
      }
    } else {
      var last := ParseCursor(cursor.value).value.1;
      assert StandsAt(w, a, last);
      forall u | u in w.server.present && p.base <= u <= p.next ensures u in have {
        if u > last {
          IncrementalCovers(w.server, last, u);
        }
      }
    }
  }

  // ---------------------------------------------------------------- commits

  /** A finished commit saves exactly the listed UIDs that the server's answer mentions. */
  lemma CommitSavesTheAnswered(s: Server, a: Uuid, page: SyncPage, fetches: seq<Fetch>, now: int)
    ensures SavedUids(s, a, CommitWrites(a, page, fetches, now))
         == set u | u in ListedUids(s, page) && MentionsUid(fetches, u)
  {
    forall u | u in s.issued
      ensures Decimal(u) in SavedIds(a, CommitWrites(a, page, fetches, now))
         <==> Decimal(u) in page.newIds && MentionsUid(fetches, u)
    {
      MentionsItsOwnUid(fetches, u);
      if Decimal(u) in page.newIds && Mentions(fetches, Decimal(u)) {
        MentionedIsSaved(a, page, fetches, now, Decimal(u));
      }
      if Decimal(u) in SavedIds(a, CommitWrites(a, page, fetches, now)) {
        SavedIsMentioned(a, page, fetches, now, Decimal(u));
      }
    }
  }

  lemma MentionedIsSaved(a: Uuid, page: SyncPage, fetches: seq<Fetch>, now: int, id: string)
    requires id in page.newIds && Mentions(fetches, id)
    ensures id in SavedIds(a, CommitWrites(a, page, fetches, now))
  {
    var results := Answers(page, fetches);
    var i :| 0 <= i < |page.newIds| && page.newIds[i] == id;
    AnswerIsReadyIff(fetches, id);
    var w := SaveEmail(a, results[i].meta.ToIncoming(), now);
    SaveWriteShape(a, results, now, w);
    assert w in CommitWrites(a, page, fetches, now) && w.incoming.messageId == id;
  }

  /** Only listed messages that are mentioned are saved. */
  lemma SavedIsMentioned(a: Uuid, page: SyncPage, fetches: seq<Fetch>, now: int, id: string)
    requires id in SavedIds(a, CommitWrites(a, page, fetches, now))
    ensures id in page.newIds && Mentions(fetches, id)
  {
    var results := Answers(page, fetches);
    var w :| w in CommitWrites(a, page, fetches, now) && w.SaveEmail? && w.incoming.messageId == id;
    if w in SaveWrites(a, results, now) {
      SaveWriteShape(a, results, now, w);
      var i :| 0 <= i < |results| && results[i].Ready? && w == SaveEmail(a, results[i].meta.ToIncoming(), now);
      AnswerIsReadyIff(fetches, page.newIds[i]);
    } else if w in MarkWrites(a, page, now) {
      MarkWriteShape(a, page, now, w);
    }
  }

  lemma CursorAfterCommit(w: World, a: Uuid, fetches: seq<Fetch>, done: nat, now: int)
    requires Inv(w, a) && w.pending.Some?
    ensures var p := w.pending.value;
            var ws := CommitWrites(a, p.page, fetches, now);
            var db := Run(w.db, Upto(ws, done));
            && WF(db) && a in db.accounts
            && CursorOf(db, a) == if done >= |ws| then Some(p.page.nextCursor) else CursorOf(w.db, a)
  {
    var p := w.pending.value;
    var ws := CommitWrites(a, p.page, fetches, now);
    hide CommitWrites, ParseCursor, FormatCursor;
    RunOk(w.db, Upto(ws, done));
    hide WF;
    ImapAnswersNeverHoldTheCursor(fetches, p.page.newIds);
    assert ws == PassWrites(a, p.page, Answers(p.page, fetches), now) by { CommitIsPass(a, p.page, fetches, now); }
    Replay.CursorMovesOnlyOnCleanPass(w.db, a, p.page, Answers(p.page, fetches), now, Min(done, |ws|));
  }

  lemma CommitIsPass(a: Uuid, page: SyncPage, fetches: seq<Fetch>, now: int)
    ensures CommitWrites(a, page, fetches, now) == PassWrites(a, page, AnswersFor(fetches, page.newIds), now)
  {
  }

  lemma CommitKeepsInv(w: World, a: Uuid, fetches: seq<Fetch>, done: nat, now: int)
    requires Inv(w, a) && w.pending.Some?
    ensures Inv(Committed(w, a, fetches, done, now), a)
  {
    var p := w.pending.value;
    var ws := CommitWrites(a, p.page, fetches, now);
    var after := Committed(w, a, fetches, done, now);
    CursorAfterCommit(w, a, fetches, done, now);
    hide WF, CommitWrites, ParseCursor, FormatCursor, Run;
    if done >= |ws| {
      FinishedCommit(w, a, fetches, done, now);
    } else {
      assert forall last :: StandsAt(after, a, last) ==> StandsAt(w, a, last);
    }
  }

  /** After a finished commit the cursor stands at its claim, and every listed UID was saved or missed. */
  lemma FinishedCommit(w: World, a: Uuid, fetches: seq<Fetch>, done: nat, now: int)
    requires Inv(w, a) && w.pending.Some? && done >= |CommitWrites(a, w.pending.value.page, fetches, now)|
    ensures var p, after := w.pending.value, Committed(w, a, fetches, done, now);
            && (forall last :: StandsAt(after, a, last) <==> last == p.next)
            && (forall u :: u in after.saved
                       <==> u in w.saved || (u in ListedUids(w.server, p.page) && MentionsUid(fetches, u)))
            && after.saved + after.missed >= w.saved + w.missed + ListedUids(w.server, p.page)
  {
    var p := w.pending.value;
    var ws := CommitWrites(a, p.page, fetches, now);
    CursorAfterCommit(w, a, fetches, done, now);
    CommitSavesTheAnswered(w.server, a, p.page, fetches, now);
    assert p.next < U32_BOUND;
    CursorRoundTrip(w.server.validity, p.next);
    hide WF, CommitWrites, ParseCursor, FormatCursor, Run, SavedUids, ListedUids, MentionsUid;
    assert Upto(ws, done) == ws;
  }

  /**
   * After a pass that ran to its end, everything the new cursor claims was saved if and only if every
   * message in its range still on the server had been saved before or was listed and answered.
   */
  lemma CleanPassLosesNothingIff(w: World, a: Uuid, fetches: seq<Fetch>, now: int)
    requires Inv(w, a) && w.pending.Some?
    ensures var p := w.pending.value;
            var after := Committed(w, a, fetches, |CommitWrites(a, p.page, fetches, now)|, now);
            && StandsAt(after, a, p.next)
            && (Covered(after.server, p.base, p.next, after.saved)
                <==> forall u | u in w.server.present && p.base <= u <= p.next ::
                       u in w.saved || (Decimal(u) in p.page.newIds && MentionsUid(fetches, u)))
  {
    var p := w.pending.value;
    FinishedCommit(w, a, fetches, |CommitWrites(a, p.page, fetches, now)|, now);
    hide WF, CommitWrites, ParseCursor, FormatCursor, Run, MentionsUid;
  }

  lemma StepKeepsInv(w: World, a: Uuid, step: Step)
    requires Inv(w, a) && Enabled(w, a, step)
    ensures Inv(Next(w, a, step), a)
  {
    match step
    case Append(u) => AppendKeepsInv(w, a, u);
    case Expunge(u) => ExpungeKeepsInv(w, a, u);
    case Discover(k, fault) => DiscoverKeepsInv(w, a, k, fault);
    case Commit(fetches, done, now) => CommitKeepsInv(w, a, fetches, done, now);
    case Abandon => AbandonKeepsInv(w, a);
    case OtherWrite(x) => OtherWriteKeepsInv(w, a, x);
  }

  /** What has been appended stays on the server until it is expunged. */
  lemma {:induction false} PresentUntilExpunged(w: World, a: Uuid, steps: seq<Step>, u: nat)
    requires forall i | 0 <= i < |steps| :: steps[i] != Expunge(u)
    requires u in w.server.issued ==> u in w.server.present
    ensures var server := RunWorld(w, a, steps).server; u in server.issued ==> u in server.present
    decreases |steps|
  {
    if steps != [] {
      assert steps[0] != Expunge(u);
      var next := if Enabled(w, a, steps[0]) then Next(w, a, steps[0]) else w;
      assert u in next.server.issued ==> u in next.server.present;
      hide Enabled, Next;
      assert forall i | 0 <= i < |steps| - 1 :: steps[1..][i] == steps[i + 1];
      PresentUntilExpunged(next, a, steps[1..], u);
    }
  }

  lemma {:induction false} RunKeepsInv(w: World, a: Uuid, steps: seq<Step>)
    requires Inv(w, a)
    ensures Inv(RunWorld(w, a, steps), a)
    decreases |steps|
  {
    hide Inv, Enabled, Next;
    if steps != [] {
      if Enabled(w, a, steps[0]) {
        StepKeepsInv(w, a, steps[0]);
      }
      RunKeepsInv(if Enabled(w, a, steps[0]) then Next(w, a, steps[0]) else w, a, steps[1..]);
    }
  }

  // ---------------------------------------------------------------- whole runs

  /**
   * After any run, every UID ever assigned between the baseline and the stored cursor was saved at
   * least once, has been expunged, or was listed by a finished pass whose answer left it out.
   */
  lemma EveryMessageIsAccountedFor(start: World, a: Uuid, steps: seq<Step>, last: nat, u: nat)
    requires Fresh(start, a)
    requires var w := RunWorld(start, a, steps); StandsAt(w, a, last) && u in w.server.issued && w.floor <= u <= last
    ensures var w := RunWorld(start, a, steps); u in w.saved || u !in w.server.present || u in w.missed
  {
    RunKeepsInv(start, a, steps);
  }

  /** A batch whose answer mentions every listed message the server still holds. */
  predicate Complete(s: Server, page: SyncPage, fetches: seq<Fetch>) {
    forall u | u in s.present && Decimal(u) in page.newIds :: MentionsUid(fetches, u)
  }

  /** Every pass of the run that finishes got a complete answer. */
  ghost predicate AllComplete(w: World, a: Uuid, steps: seq<Step>)
    decreases |steps|
  {
    steps != [] ==>
      && (Enabled(w, a, steps[0]) ==> StepComplete(w, a, steps[0]))
      && AllComplete(if Enabled(w, a, steps[0]) then Next(w, a, steps[0]) else w, a, steps[1..])
  }

  ghost predicate StepComplete(w: World, a: Uuid, step: Step) {
    step.Commit? && w.pending.Some? && step.done >= |CommitWrites(a, w.pending.value.page, step.fetches, step.now)|
    ==> Complete(w.server, w.pending.value.page, step.fetches)
  }

  lemma {:induction false} MissedAreGone(w: World, a: Uuid, steps: seq<Step>)
    requires Inv(w, a) && w.missed !! w.server.present && AllComplete(w, a, steps)
    ensures var after := RunWorld(w, a, steps); after.missed !! after.server.present
    decreases |steps|
  {
    hide Inv, Enabled, Next, StepComplete;
    if steps != [] {
      if Enabled(w, a, steps[0]) {
        StepKeepsInv(w, a, steps[0]);
        MissedStayGone(w, a, steps[0]);
      }
      MissedAreGone(if Enabled(w, a, steps[0]) then Next(w, a, steps[0]) else w, a, steps[1..]);
    }
  }

  lemma MissedStayGone(w: World, a: Uuid, step: Step)
    requires Inv(w, a) && Enabled(w, a, step) && StepComplete(w, a, step) && w.missed !! w.server.present
    ensures Next(w, a, step).missed !! Next(w, a, step).server.present
  {
    hide WF, CommitWrites, CursorOk, PendingOk, Run, Apply, MentionsUid, DiscoveredPage;
  }

  /** With complete answers nothing is lost: every such UID was saved or has been expunged. */
  lemma NoMessageIsLost(start: World, a: Uuid, steps: seq<Step>, last: nat, u: nat)
    requires Fresh(start, a) && AllComplete(start, a, steps)
    requires var w := RunWorld(start, a, steps); StandsAt(w, a, last) && u in w.server.issued && w.floor <= u <= last
    ensures var w := RunWorld(start, a, steps); u in w.saved || u !in w.server.present
  {
    EveryMessageIsAccountedFor(start, a, steps, last, u);
    MissedAreGone(start, a, steps);
  }

  /** What "saved" means: right after the statement the message has a row in the account. */
  lemma SavedMeansStored(db: Db, a: Uuid, m: Incoming, now: int)
    requires WF(db) && a in db.accounts
    ensures Row(Apply(db, SaveEmail(a, m, now)), a, m.messageId).Some?
  {
    RowAfterSave(db, a, m, now, a, m.messageId);
  }

  // ---------------------------------------------------------------- a run that loses messages

  function SilentRun(k: nat, now: int): seq<Step> {
    [Discover(k, Healthy), Commit([], 1, now)]
  }

  /**
   * Without complete answers messages are lost: when the first listing of a mailbox gets an empty
   * answer, the cursor moves to the greatest UID, which is on the server and was never saved.
   */
  lemma SilentServerLosesMessages(start: World, a: Uuid, k: nat, now: int)
    requires Fresh(start, a) && CursorOf(start.db, a) == None && start.server.present != {} && k > 0
    ensures var w, top := RunWorld(start, a, SilentRun(k, now)), MaxOf(start.server.present);
            && StandsAt(w, a, top) && w.floor <= top && top in w.server.present && top !in w.saved && top in w.missed
  {
    var mid := Next(start, a, Discover(k, Healthy));
    FirstListing(start, a, k);
    StepKeepsInv(start, a, Discover(k, Healthy));
    TwoSteps(start, mid, a, Discover(k, Healthy), Commit([], 1, now));
    hide Inv, Next, CommitWrites, Run, Fresh, ParseCursor, RunWorld, StandsAt, Enabled;
    hide ListedUids, MissedUids, SavedUids;
    EmptyAnswerWrites(a, mid.pending.value.page, now);
    FinishedCommit(mid, a, [], 1, now);
    CommitStep(mid, a, [], 1, now);
  }

  lemma FirstListing(start: World, a: Uuid, k: nat)
    requires Fresh(start, a) && CursorOf(start.db, a) == None && start.server.present != {} && k > 0
    ensures var mid, top := Next(start, a, Discover(k, Healthy)), MaxOf(start.server.present);
            && mid.server == start.server && mid.saved == {} && mid.missed == {}
            && mid.pending.Some? && mid.pending.value.next == top && mid.pending.value.base <= top
            && mid.pending.value.page == InitialPage(Box(start.server), k)
            && top in ListedUids(start.server, mid.pending.value.page)
  {
    BaseIsBelowTop(start.server, k);
    InitialCovers(start.server, k, MaxOf(start.server.present));
  }

  lemma CommitStep(w: World, a: Uuid, fetches: seq<Fetch>, done: nat, now: int)
    requires w.pending.Some?
    ensures Next(w, a, Commit(fetches, done, now)) == Committed(w, a, fetches, done, now)
  {
  }

  lemma TwoSteps(w: World, mid: World, a: Uuid, x: Step, y: Step)
    requires Enabled(w, a, x) && mid == Next(w, a, x) && Enabled(mid, a, y)
    ensures RunWorld(w, a, [x, y]) == Next(mid, a, y)
  {
    hide Enabled, Next;
    assert [x, y][1..] == [y] && [y][1..] == [];
    assert RunWorld(mid, a, [y]) == RunWorld(Next(mid, a, y), a, []);
    assert RunWorld(w, a, [x, y]) == RunWorld(mid, a, [y]);
  }

  lemma BaseIsBelowTop(s: Server, k: nat)
    requires s.present != {} && k > 0
    ensures InitialBase(s.present, k) <= MaxOf(s.present)
  {
    DescendingElements(s.present);
    if |s.present| > k {
      assert Descending(s.present)[k - 1] in Descending(s.present);
    }
  }

  lemma EmptyAnswerWrites(a: Uuid, page: SyncPage, now: int)
    requires page.trashedIds == page.restoredIds == page.deletedIds == []
    ensures CommitWrites(a, page, [], now) == [UpdateCursor(a, page.nextCursor, now)]
  {
    var results := Answers(page, []);
    ImapAnswersNeverHoldTheCursor([], page.newIds);
    forall i | 0 <= i < |results| ensures results[i].Failed? {
    }
    NothingToSave(a, results, now);
  }

  lemma {:induction false} NothingToSave(a: Uuid, results: seq<Hydrated>, now: int)
    requires forall i | 0 <= i < |results| :: results[i].Failed?
    ensures SaveWrites(a, results, now) == []
  {
    if results != [] {
      NothingToSave(a, results[..|results| - 1], now);
    }
  }

  /** One mailbox with one message, UID 7, of an account that was just linked. */
  function OneMessage(): World {
    var accounts := map[0 := Account(Store.Imap, "a@b", None, None, None, 0)];
    World(Server(1, {7}, {7}), Db(accounts, map[], map[], map[], 1), {}, {}, 0, None)
  }

  lemma OneMessageIsLost()
    ensures Fresh(OneMessage(), 0)
    ensures var w := RunWorld(OneMessage(), 0, SilentRun(10, 0));
            StandsAt(w, 0, 7) && 7 in w.server.present && 7 !in w.saved
  {
    assert Fresh(OneMessage(), 0);
    SilentServerLosesMessages(OneMessage(), 0, 10, 0);
    assert MaxOf({7}) in {7};
  }
}
