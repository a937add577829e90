/**
 * The synchronization engine as it runs: discovery with one retry, hydration, marks, cursor,
 * then matches and purge. The provider's answers are arbitrary inputs, and any statement of the
 * database may fail by itself.
 */
module Engine {
  import opened Prelude
  import opened Store
  import opened StorageHandle
  import opened SyncEngine
  import ClassifyPass
  import HeldCursor
  import Hydration
  import Replay
  import Statements

  datatype SyncError = Provider(e: ProviderError) | Database

  /** What the provider answers during one discovery attempt. */
  datatype Discovery = Discovery(incremental: Result<SyncPage, ProviderError>, initial: Result<SyncPage, ProviderError>)

  datatype Found = Found(page: SyncPage, isInitial: bool)

  // ---------------------------------------------------------------- discovery as a function

  function AsInitial(r: Result<SyncPage, ProviderError>): Result<Found, ProviderError> {
    match r
    case Ok(page) => Ok(Found(page, true))
    case Err(e) => Err(e)
  }

  predicate Expired(cursor: Option<string>, d: Discovery) {
    cursor.Some? && d.incremental == Err(CursorExpired)
  }

  /** No cursor, or an expired one, means a fresh baseline. */
  function Fetched(cursor: Option<string>, d: Discovery): Result<Found, ProviderError> {
    if cursor.None? || Expired(cursor, d) then AsInitial(d.initial)
    else match d.incremental
         case Ok(page) => Ok(Found(page, false))
         case Err(e) => Err(e)
  }

  function FetchWrites(a: Uuid, cursor: Option<string>, d: Discovery): seq<Write> {
    if Expired(cursor, d) then [ClearCursor(a)] else []
  }

  predicate Retries(cursor: Option<string>, first: Discovery) {
    Fetched(cursor, first) == Err(Unauthorized)
  }

  function Discovered(cursor: Option<string>, first: Discovery, second: Discovery): Result<Found, ProviderError> {
    if Retries(cursor, first) then Fetched(cursor, second) else Fetched(cursor, first)
  }

  function DiscoveryWrites(a: Uuid, cursor: Option<string>, first: Discovery, second: Discovery): seq<Write> {
    FetchWrites(a, cursor, first) + if Retries(cursor, first) then FetchWrites(a, cursor, second) else []
  }

  /** The provider rejects the token in the request that a discovery ends with. */
  predicate Rejected(cursor: Option<string>, d: Discovery) {
    if cursor == None || d.incremental == Err(CursorExpired) then d.initial == Err(Unauthorized)
    else d.incremental == Err(Unauthorized)
  }

  /**
   * What a discovery with its repetition finds: the second attempt counts exactly when the first was rejected. With
   * a cursor its incremental answer counts, unless the cursor has expired; otherwise the initial one, and it says so.
   */
  lemma DiscoveredIff(cursor: Option<string>, first: Discovery, second: Discovery)
    ensures var d := if Rejected(cursor, first) then second else first;
            var fromScratch := cursor == None || d.incremental == Err(CursorExpired);
            && (forall page, isInitial :: Discovered(cursor, first, second) == Ok(Found(page, isInitial))
                  <==> isInitial == fromScratch && (if fromScratch then d.initial else d.incremental) == Ok(page))
            && (forall e :: Discovered(cursor, first, second) == Err(e)
                  <==> (if fromScratch then d.initial else d.incremental) == Err(e))
  {
  }

  /** The cursor is cleared once for every attempt that finds it expired. */
  lemma ClearedOncePerExpiry(a: Uuid, cursor: Option<string>, first: Discovery, second: Discovery)
    ensures var once := if cursor != None && first.incremental == Err(CursorExpired) then 1 else 0;
            var again := if Rejected(cursor, first) && cursor != None && second.incremental == Err(CursorExpired) then 1
                         else 0;
            |DiscoveryWrites(a, cursor, first, second)| == once + again
            && forall w | w in DiscoveryWrites(a, cursor, first, second) :: w == ClearCursor(a)
  {
  }

  /** The answers the hydration loop sees; `None` when the whole batch request failed. */
  function Answered(page: SyncPage, metadata: Result<seq<Hydrated>, ProviderError>): Option<seq<Hydrated>> {
    if page.newIds == [] then Some([])
    else match metadata
         case Ok(results) => Some(results)
         case Err(_) => None
  }

  /** A page without new messages asks for nothing; any other needs the answer to its batch request. */
  lemma AnsweredIff(page: SyncPage, metadata: Result<seq<Hydrated>, ProviderError>, results: seq<Hydrated>)
    ensures Answered(page, metadata) == Some(results)
       <==> if page.newIds == [] then results == [] else metadata == Ok(results)
  {
  }

  /** The statements a pass must execute once discovery and the batch request are done. */
  function DueWrites(a: Uuid, found: Result<Found, ProviderError>, metadata: Result<seq<Hydrated>, ProviderError>,
                     now: int): seq<Write> {
    match found
    case Err(_) => []
    case Ok(f) =>
      match Answered(f.page, metadata)
      case None => []
      case Some(results) => PassWrites(a, f.page, results, now)
  }

  function TrimWrites(a: Uuid, maxInbox: int, maxFindings: int): seq<Write> {
    [TrimInbox(a, maxInbox), TrimFindings(a, maxFindings)]
  }

  // ---------------------------------------------------------------- statements that may fail

  /** Faults are consumed one per statement; past their end every statement is healthy. */
  function Head(fs: seq<Fault>): Fault {
    if fs == [] then Healthy else fs[0]
  }

  function Drop(fs: seq<Fault>, n: nat): seq<Fault> {
    fs[Min(n, |fs|)..]
  }

  /** Executed statements of a list that stops at the first reported failure. */
  function Ran(ws: seq<Write>, fs: seq<Fault>): seq<Write>
    decreases |ws|
  {
    if ws == [] || Head(fs).Refused? then []
    else [ws[0]] + if Head(fs).Healthy? then Ran(ws[1..], Drop(fs, 1)) else []
  }

  /** The faults left for what follows such a list. */
  function After(ws: seq<Write>, fs: seq<Fault>): seq<Fault>
    decreases |ws|
  {
    if ws == [] then fs
    else if Head(fs).Healthy? then After(ws[1..], Drop(fs, 1)) else Drop(fs, 1)
  }

  /** No statement of the list reports a failure. */
  predicate Clean(ws: seq<Write>, fs: seq<Fault>)
    decreases |ws|
  {
    ws == [] || (Head(fs).Healthy? && Clean(ws[1..], Drop(fs, 1)))
  }

  /** Executed statements of a list whose failures are ignored. */
  function Tried(ws: seq<Write>, fs: seq<Fault>): seq<Write>
    decreases |ws|
  {
    if ws == [] then [] else (if Head(fs).Refused? then [] else [ws[0]]) + Tried(ws[1..], Drop(fs, 1))
  }

  /** What ran is a prefix, all of it when nothing failed. */
  lemma {:induction false} RanIsPrefix(ws: seq<Write>, fs: seq<Fault>)
    ensures Ran(ws, fs) <= ws && (Clean(ws, fs) ==> Ran(ws, fs) == ws)
    decreases |ws|
  {
    if ws != [] && Head(fs).Healthy? {
      RanIsPrefix(ws[1..], Drop(fs, 1));
      assert ws == [ws[0]] + ws[1..];
    }
  }

  /** A list continues after a clean part and stops within any other. */
  lemma {:induction false} RanConcat(xs: seq<Write>, ys: seq<Write>, fs: seq<Fault>)
    ensures Clean(xs + ys, fs) <==> Clean(xs, fs) && Clean(ys, After(xs, fs))
    ensures Ran(xs + ys, fs) == Ran(xs, fs) + if Clean(xs, fs) then Ran(ys, After(xs, fs)) else []
    ensures After(xs + ys, fs) == if Clean(xs, fs) then After(ys, After(xs, fs)) else After(xs, fs)
    decreases |xs|
  {
    if xs == [] {
      assert xs + ys == ys;
    } else {
      assert (xs + ys)[0] == xs[0] && (xs + ys)[1..] == xs[1..] + ys;
      RanConcat(xs[1..], ys, Drop(fs, 1));
      hide Drop, Head;
    }
  }

  lemma RunRanConcat(db: Db, xs: seq<Write>, ys: seq<Write>, fs: seq<Fault>)
    ensures Run(db, Ran(xs + ys, fs))
         == if Clean(xs, fs) then Run(Run(db, Ran(xs, fs)), Ran(ys, After(xs, fs))) else Run(db, Ran(xs, fs))
  {
    RanConcat(xs, ys, fs);
    if Clean(xs, fs) {
      RunConcat(db, Ran(xs, fs), Ran(ys, After(xs, fs)));
    } else {
      assert Ran(xs, fs) + [] == Ran(xs, fs);
    }
  }

  lemma {:induction false} TriedConcat(xs: seq<Write>, ys: seq<Write>, fs: seq<Fault>)
    ensures Tried(xs + ys, fs) == Tried(xs, fs) + Tried(ys, Drop(fs, |xs|))
    decreases |xs|
  {
    if xs == [] {
      assert xs + ys == ys;
    } else {
      assert (xs + ys)[1..] == xs[1..] + ys;
      DropTwice(fs, 1, |xs| - 1);
      hide Drop, Head;
      TriedConcat(xs[1..], ys, Drop(fs, 1));
      var first := if Head(fs).Refused? then [] else [xs[0]];
      assert first + (Tried(xs[1..], Drop(fs, 1)) + Tried(ys, Drop(fs, |xs|)))
          == first + Tried(xs[1..], Drop(fs, 1)) + Tried(ys, Drop(fs, |xs|));
    }
  }

  lemma DropTwice(fs: seq<Fault>, m: nat, n: nat)
    ensures Drop(Drop(fs, m), n) == Drop(fs, m + n)
  {
  }

  /** A statement that reports a failure is the last of its list, executed or not. */
  lemma FailingStatement(done: seq<Write>, w: Write, rest: seq<Write>, fs: seq<Fault>)
    requires Clean(done, fs) && !Head(After(done, fs)).Healthy?
    ensures var all, left := done + [w] + rest, After(done, fs);
            && !Clean(all, fs) && After(all, fs) == Drop(left, 1)
            && Ran(all, fs) == if Head(left).Refused? then done else done + [w]
  {
    hide Drop, Head;
    var tail := [w] + rest;
    assert done + [w] + rest == done + tail;
    RanIsPrefix(done, fs);
    RanConcat(done, tail, fs);
    OneRan(w, rest, After(done, fs));
    assert done + [] == done;
  }

  lemma OneRan(w: Write, rest: seq<Write>, fs: seq<Fault>)
    requires !Head(fs).Healthy?
    ensures var all := [w] + rest;
            !Clean(all, fs) && After(all, fs) == Drop(fs, 1) && Ran(all, fs) == if Head(fs).Refused? then [] else [w]
  {
    hide Drop;
  }

  /** A healthy statement extends the clean part. */
  lemma HealthyStatement(done: seq<Write>, w: Write, fs: seq<Fault>)
    requires Clean(done, fs) && Head(After(done, fs)).Healthy?
    ensures Clean(done + [w], fs) && After(done + [w], fs) == Drop(After(done, fs), 1)
  {
    hide Drop, Head;
    RanConcat(done, [w], fs);
    OneClean(w, After(done, fs));
  }

  lemma OneClean(w: Write, fs: seq<Fault>)
    requires Head(fs).Healthy?
    ensures Clean([w], fs) && After([w], fs) == Drop(fs, 1) && Ran([w], fs) == [w]
  {
    assert [w][1..] == [];
  }

  lemma RunNothing(db: Db)
    ensures Run(db, []) == db
  {
  }

  lemma RunOneMore(db: Db, ws: seq<Write>, w: Write)
    ensures Run(db, ws + [w]) == Apply(Run(db, ws), w)
  {
    RunConcat(db, ws, [w]);
  }

  // ---------------------------------------------------------------- hydrated rows

  function SaveOf(a: Uuid, r: Hydrated, now: int): seq<Write> {
    match r
    case Ready(m) => [SaveEmail(a, m.ToIncoming(), now)]
    case Failed(_) => []
  }

  /** The saves of the answers from `i` on. */
  lemma {:induction false} SavesSplit(a: Uuid, results: seq<Hydrated>, now: int, i: nat) returns (rest: seq<Write>)
    requires i < |results|
    ensures SaveWrites(a, results[..i + 1], now) == SaveWrites(a, results[..i], now) + SaveOf(a, results[i], now)
    ensures SaveWrites(a, results, now) == SaveWrites(a, results[..i + 1], now) + rest
    decreases |results| - i
  {
    assert results[..i + 1][..i] == results[..i];
    if i + 1 == |results| {
      assert results[..i + 1] == results;
      rest := [];
    } else {
      var later := SavesSplit(a, results, now, i + 1);
      rest := SaveOf(a, results[i + 1], now) + later;
    }
  }

  function ReadyOnly(results: seq<Hydrated>): seq<Metadata> {
    if results == [] then []
    else
      ReadyOnly(results[..|results| - 1])
      + match results[|results| - 1] {
          case Ready(m) => [m]
          case Failed(_) => []
        }
  }

  function Metas(saved: seq<(Uuid, Metadata)>): seq<Metadata> {
    seq(|saved|, i requires 0 <= i < |saved| => saved[i].1)
  }

  /** Each entry names the row its message was saved to, unless the message is one of the `deleted`. */
  ghost predicate RowsExist(emails: map<Uuid, Email>, a: Uuid, saved: seq<(Uuid, Metadata)>, deleted: seq<string>) {
    forall i | 0 <= i < |saved| :: saved[i].1.id in deleted || RowOf(emails, a, saved[i])
  }

  predicate RowOf(emails: map<Uuid, Email>, a: Uuid, entry: (Uuid, Metadata)) {
    entry.0 in emails && emails[entry.0].account == a && emails[entry.0].messageId == entry.1.id
  }

  lemma NoRowsYet(emails: map<Uuid, Email>, a: Uuid)
    ensures RowsExist(emails, a, [], [])
  {
  }

  /** Marks and the cursor keep the saved rows, except those of deleted messages. */
  lemma {:induction false} MarksKeepRows(db: Db, a: Uuid, page: SyncPage, ws: seq<Write>, saved: seq<(Uuid, Metadata)>)
    requires RowsExist(db.emails, a, saved, page.deletedIds)
    requires forall w | w in ws :: MarkOrCursor(w, a, page)
    ensures RowsExist(Run(db, ws).emails, a, saved, page.deletedIds)
    decreases |ws|
  {
    if ws != [] {
      MarkKeepsRows(db, a, page, ws[0], saved);
      MarksKeepRows(Apply(db, ws[0]), a, page, ws[1..], saved);
    }
  }

  ghost predicate MarkOrCursor(w: Write, a: Uuid, page: SyncPage) {
    || (w.UpdateEmails? && (w.change.Trash? || w.change.Untrash?))
    || (w.DeleteEmails? && exists p | p in page.deletedIds :: w.sel == ByMessage(a, p))
    || w.UpdateCursor?
  }

  lemma MarkKeepsRows(db: Db, a: Uuid, page: SyncPage, w: Write, saved: seq<(Uuid, Metadata)>)
    requires RowsExist(db.emails, a, saved, page.deletedIds) && MarkOrCursor(w, a, page)
    ensures RowsExist(Apply(db, w).emails, a, saved, page.deletedIds)
  {
  }

  lemma MarksAreMarks(a: Uuid, page: SyncPage, results: seq<Hydrated>, now: int)
    ensures forall w | w in MarkWrites(a, page, now) + CursorWrites(a, page, results, now) :: MarkOrCursor(w, a, page)
  {
    forall w | w in MarkWrites(a, page, now) + CursorWrites(a, page, results, now) ensures MarkOrCursor(w, a, page) {
      if w in MarkWrites(a, page, now) {
        MarkWriteShape(a, page, now, w);
      }
    }
  }

  lemma HoldsGrow(results: seq<Hydrated>, i: nat)
    requires i < |results|
    ensures AnyHolds(results[..i + 1]) <==> AnyHolds(results[..i]) || HoldsCursor(results[i])
  {
    if AnyHolds(results[..i]) {
      var j :| 0 <= j < i && HoldsCursor(results[..i][j]);
      assert results[..i + 1][j] == results[..i][j];
    }
    assert results[..i + 1][i] == results[i];
    assert forall j | 0 <= j < i :: results[..i + 1][j] == results[..i][j];
  }

  // ---------------------------------------------------------------- matches

  /** The active criteria, each once, in the order the classifier is given. */
  ghost predicate ListsActive(criteria: map<Uuid, Criterion>, active: seq<Uuid>) {
    && (forall k :: k in active <==> k in criteria && criteria[k].isActive)
    && (forall i, j | 0 <= i < j < |active| :: active[i] != active[j])
  }

  /** The labels the classifier is given. */
  function Labels(criteria: map<Uuid, Criterion>, active: seq<Uuid>): seq<string>
    requires forall k | k in active :: k in criteria
  {
    seq(|active|, i requires 0 <= i < |active| => criteria[active[i]].name)
  }

  predicate InRange(saved: seq<ClassifyPass.Saved>, rows: nat, criteria: nat) {
    forall m | m in saved :: m.task < rows && m.criterion < criteria
  }

  /** The matches of a classification pass over `rows`, in the order it saved them. */
  function ToMatches(saved: seq<ClassifyPass.Saved>, rows: seq<(Uuid, Metadata)>, active: seq<Uuid>): seq<Match>
    requires InRange(saved, |rows|, |active|)
  {
    seq(|saved|, k requires 0 <= k < |saved| =>
      Match(rows[saved[k].task].0, active[saved[k].criterion], saved[k].confidence))
  }

  /** Every match whose email and criterion exist is in the table afterwards, with its confidence. */
  lemma {:induction false} MatchesAreStored(db: Db, matches: seq<Match>, now: int, i: nat)
    requires WF(db) && i < |matches| && matches[i].email in db.emails && matches[i].criterion in db.criteria
    requires forall j | i < j < |matches| ::
               matches[j].email != matches[i].email || matches[j].criterion != matches[i].criterion
    ensures StoresMatch(Run(db, MatchWrites(matches, now)), matches[i]) && WF(Run(db, MatchWrites(matches, now)))
    decreases |matches|
  {
    var n := |matches| - 1;
    var init, m := matches[..n], matches[n];
    var mid := Run(db, MatchWrites(init, now));
    MatchesTouchNoEmail(db, init, now);
    assert MatchWrites(matches, now)
        == MatchWrites(init, now) + [SaveClassification(m.email, m.criterion, Some(m.confidence), now)];
    RunOneMore(db, MatchWrites(init, now), SaveClassification(m.email, m.criterion, Some(m.confidence), now));
    ApplyOk(mid, SaveClassification(m.email, m.criterion, Some(m.confidence), now));
    hide WF, Run, MatchWrites, Apply;
    if i == n {
      Statements.SavedMatch(mid, m.email, m.criterion, Some(m.confidence), now);
    } else {
      MatchesAreStored(db, init, now, i);
      OtherMatchStays(mid, m, matches[i], now);
    }
  }

  ghost predicate StoresMatch(db: Db, m: Match) {
    && (exists c | c in db.classifications :: Statements.IsMatch(db.classifications[c], m.email, m.criterion))
    && (forall c | c in db.classifications && Statements.IsMatch(db.classifications[c], m.email, m.criterion) ::
          db.classifications[c].confidence == Some(m.confidence))
  }

  lemma {:induction false} MatchesTouchNoEmail(db: Db, matches: seq<Match>, now: int)
    requires WF(db)
    ensures var after := Run(db, MatchWrites(matches, now));
            WF(after) && after.emails == db.emails && after.criteria == db.criteria
    decreases |matches|
  {
    if matches != [] {
      var n := |matches| - 1;
      var init, m := matches[..n], matches[n];
      var w := SaveClassification(m.email, m.criterion, Some(m.confidence), now);
      MatchesTouchNoEmail(db, init, now);
      assert MatchWrites(matches, now) == MatchWrites(init, now) + [w];
      hide WF, Run, MatchWrites, Apply;
      RunOneMore(db, MatchWrites(init, now), w);
      ApplyOk(Run(db, MatchWrites(init, now)), w);
      MatchTouchesNoEmail(Run(db, MatchWrites(init, now)), m, now);
    } else {
      RunNothing(db);
    }
  }

  lemma MatchTouchesNoEmail(db: Db, m: Match, now: int)
    ensures var after := Apply(db, SaveClassification(m.email, m.criterion, Some(m.confidence), now));
            after.emails == db.emails && after.criteria == db.criteria
  {
  }

  lemma OtherMatchStays(db: Db, m: Match, kept: Match, now: int)
    requires WF(db) && StoresMatch(db, kept) && (m.email != kept.email || m.criterion != kept.criterion)
    ensures StoresMatch(Apply(db, SaveClassification(m.email, m.criterion, Some(m.confidence), now)), kept)
  {
    var rows := Apply(db, SaveClassification(m.email, m.criterion, Some(m.confidence), now)).classifications;
    forall c
      ensures c in rows && Statements.IsMatch(rows[c], kept.email, kept.criterion)
        <==> c in db.classifications && Statements.IsMatch(db.classifications[c], kept.email, kept.criterion)
      ensures c in rows && c in db.classifications
              && Statements.IsMatch(db.classifications[c], kept.email, kept.criterion) ==>
                rows[c] == db.classifications[c]
    {
      Statements.OtherMatchUntouched(db, m.email, m.criterion, Some(m.confidence), now, kept.email, kept.criterion, c);
    }
    hide WF, Apply, Statements.IsMatch;
  }

  /**
   * However the tasks of a pass interleave, its matches name newly saved rows, each at most once,
   * and criteria that were offered, with a confidence in [0.5, 1].
   */
  lemma MatchesNameSavedRows(p: ClassifyPass.Pass, steps: seq<ClassifyPass.Step>, rows: seq<(Uuid, Metadata)>,
                             active: seq<Uuid>)
    requires p.total == |rows| && |p.labels| == |active|
    ensures var saved := ClassifyPass.Run(p, ClassifyPass.Init(p), steps).saved;
            && InRange(saved, |rows|, |active|)
            && (forall k, l | 0 <= k < l < |saved| :: saved[k].task != saved[l].task)
            && forall m | m in ToMatches(saved, rows, active) ::
                 && m.criterion in active && 0.5 <= m.confidence <= 1.0
                 && exists i | 0 <= i < |rows| :: rows[i].0 == m.email
  {
    ClassifyPass.SavedMatchesAreSound(p, steps);
    var saved := ClassifyPass.Run(p, ClassifyPass.Init(p), steps).saved;
    hide ClassifyPass.Run;
    assert InRange(saved, |rows|, |active|);
    var matches := ToMatches(saved, rows, active);
    forall m | m in matches
      ensures m.criterion in active && 0.5 <= m.confidence <= 1.0 && exists i | 0 <= i < |rows| :: rows[i].0 == m.email
    {
      var k :| 0 <= k < |matches| && matches[k] == m;
      assert rows[saved[k].task].0 == m.email;
      assert active[saved[k].criterion] in active;
    }
  }

  /** The classification pass is given these rows, the names of the active criteria, and the kind of sync. */
  ghost predicate PassOver(p: ClassifyPass.Pass, rows: nat, criteria: map<Uuid, Criterion>, active: seq<Uuid>,
                           isInitial: bool) {
    && p.total == rows && p.isInitial == isInitial && |p.labels| == |active|
    && forall k | 0 <= k < |active| :: active[k] in criteria && p.labels[k] == criteria[active[k]].name
  }

  /** The matches are exactly what the tasks of the pass accepted and stored, each for its own row and criterion. */
  ghost predicate AcceptedMatches(matches: seq<Match>, p: ClassifyPass.Pass, steps: seq<ClassifyPass.Step>,
                            rows: seq<(Uuid, Metadata)>, active: seq<Uuid>) {
    forall email, criterion, c ::
      Match(email, criterion, c) in matches
      <==> exists i, k | 0 <= i < |rows| && 0 <= k < |active| ::
             rows[i].0 == email && active[k] == criterion && ClassifyPass.AcceptedAndStored(p, steps, i, k, c)
  }

  lemma ToMatchesIff(p: ClassifyPass.Pass, steps: seq<ClassifyPass.Step>, rows: seq<(Uuid, Metadata)>,
                     active: seq<Uuid>)
    requires p.total == |rows| && |p.labels| == |active|
    ensures var saved := ClassifyPass.Run(p, ClassifyPass.Init(p), steps).saved;
            InRange(saved, |rows|, |active|) && AcceptedMatches(ToMatches(saved, rows, active), p, steps, rows, active)
  {
    MatchesNameSavedRows(p, steps, rows, active);
    forall email, criterion, c
      ensures Match(email, criterion, c)
              in ToMatches(ClassifyPass.Run(p, ClassifyPass.Init(p), steps).saved, rows, active)
        <==> exists i, k | 0 <= i < |rows| && 0 <= k < |active| ::
               rows[i].0 == email && active[k] == criterion && ClassifyPass.AcceptedAndStored(p, steps, i, k, c)
    {
      ToMatchIff(p, steps, rows, active, email, criterion, c);
    }
    hide ClassifyPass.Run, ClassifyPass.AcceptedAndStored, ToMatches;
  }

  lemma ToMatchIff(p: ClassifyPass.Pass, steps: seq<ClassifyPass.Step>, rows: seq<(Uuid, Metadata)>,
                   active: seq<Uuid>, email: Uuid, criterion: Uuid, c: real)
    requires p.total == |rows| && |p.labels| == |active|
    requires InRange(ClassifyPass.Run(p, ClassifyPass.Init(p), steps).saved, |rows|, |active|)
    ensures Match(email, criterion, c)
            in ToMatches(ClassifyPass.Run(p, ClassifyPass.Init(p), steps).saved, rows, active)
       <==> exists i, k | 0 <= i < |rows| && 0 <= k < |active| ::
              rows[i].0 == email && active[k] == criterion && ClassifyPass.AcceptedAndStored(p, steps, i, k, c)
  {
    var saved := ClassifyPass.Run(p, ClassifyPass.Init(p), steps).saved;
    var matches := ToMatches(saved, rows, active);
    hide ClassifyPass.Run, ClassifyPass.AcceptedAndStored;
    if Match(email, criterion, c) in matches {
      var j :| 0 <= j < |matches| && matches[j] == Match(email, criterion, c);
      ClassifyPass.SavedIff(p, steps, saved[j].task, saved[j].criterion, c);
      assert saved[j] == ClassifyPass.Saved(saved[j].task, saved[j].criterion, c);
    }
    if i, k :| 0 <= i < |rows| && 0 <= k < |active| && rows[i].0 == email && active[k] == criterion
               && ClassifyPass.AcceptedAndStored(p, steps, i, k, c) {
      ClassifyPass.SavedIff(p, steps, i, k, c);
      var j :| 0 <= j < |saved| && saved[j] == ClassifyPass.Saved(i, k, c);
      assert matches[j] == Match(email, criterion, c);
    }
  }

  // ---------------------------------------------------------------- the rows of a pass

  /** The rows are those of the answered messages, one for every answer, in order. */
  ghost predicate ListsAnswers(rows: seq<(Uuid, Metadata)>, results: seq<Hydrated>) {
    exists at: seq<nat> :: AnswersAt(rows, results, at)
  }

  ghost predicate AnswersAt(rows: seq<(Uuid, Metadata)>, results: seq<Hydrated>, at: seq<nat>) {
    && |at| == |rows|
    && (forall k | 0 <= k < |at| :: at[k] < |results| && results[at[k]] == Ready(rows[k].1))
    && (forall k, l | 0 <= k < l < |at| :: at[k] < at[l])
    && (forall i: nat | i < |results| && results[i].Ready? :: i in at)
  }

  lemma {:induction false} ReadyRows(rows: seq<(Uuid, Metadata)>, results: seq<Hydrated>)
    requires Metas(rows) == ReadyOnly(results)
    ensures ListsAnswers(rows, results)
    decreases |results|
  {
    assert |Metas(rows)| == |rows|;
    if results == [] {
      assert AnswersAt(rows, results, []);
    } else {
      var n := |results| - 1;
      if results[n].Ready? {
        assert |ReadyOnly(results)| > 0;
        var init := rows[..|rows| - 1];
        assert Metas(rows) == Metas(init) + [rows[|rows| - 1].1];
        assert ReadyOnly(results) == ReadyOnly(results[..n]) + [results[n].meta];
        var ready := ReadyOnly(results[..n]);
        assert Metas(init) == Metas(rows)[..|rows| - 1] == (ready + [results[n].meta])[..|ready|] == ready;
        ReadyRows(init, results[..n]);
      } else {
        assert ReadyOnly(results) == ReadyOnly(results[..n]);
        ReadyRows(rows, results[..n]);
      }
      OneMoreAnswer(rows, results);
    }
  }

  lemma OneMoreAnswer(rows: seq<(Uuid, Metadata)>, results: seq<Hydrated>)
    requires results != []
    requires var n, last := |results| - 1, results[|results| - 1];
             if last.Ready?
             then rows != [] && rows[|rows| - 1].1 == last.meta && ListsAnswers(rows[..|rows| - 1], results[..n])
             else ListsAnswers(rows, results[..n])
    ensures ListsAnswers(rows, results)
  {
    var n, last := |results| - 1, results[|results| - 1];
    assert results == results[..n] + [last];
    if last.Ready? {
      var init := rows[..|rows| - 1];
      var at :| AnswersAt(init, results[..n], at);
      ReadyAnswer(init, results[..n], at, rows[|rows| - 1], last);
      assert rows == init + [rows[|rows| - 1]];
    } else {
      var at :| AnswersAt(rows, results[..n], at);
      FailedAnswer(rows, results[..n], at, last);
    }
    hide AnswersAt;
  }

  lemma ReadyAnswer(rows: seq<(Uuid, Metadata)>, results: seq<Hydrated>, at: seq<nat>, row: (Uuid, Metadata),
                    last: Hydrated)
    requires AnswersAt(rows, results, at) && last == Ready(row.1)
    ensures AnswersAt(rows + [row], results + [last], at + [|results|])
  {
  }

  lemma FailedAnswer(rows: seq<(Uuid, Metadata)>, results: seq<Hydrated>, at: seq<nat>, last: Hydrated)
    requires AnswersAt(rows, results, at) && last.Failed?
    ensures AnswersAt(rows, results + [last], at)
  {
  }

  /**
   * The matches of a successful pass: those of a classification of exactly the rows it saved, with the active
   * criteria and the kind of the sync it discovered.
   */
  ghost predicate ClassifiesItsRows(matches: seq<Match>, saved: Db, a: Uuid, found: Found, answers: seq<Hydrated>,
                                    active: seq<Uuid>, steps: seq<ClassifyPass.Step>) {
    exists rows, p ::
      && ListsAnswers(rows, answers) && RowsExist(saved.emails, a, rows, found.page.deletedIds)
      && PassOver(p, |rows|, saved.criteria, active, found.isInitial)
      && AcceptedMatches(matches, p, steps, rows, active)
  }

  /** A failed pass reports the provider's error of its discovery or its batch, and a database error otherwise. */
  ghost predicate Explains(e: SyncError, found: Result<Found, ProviderError>,
                           metadata: Result<seq<Hydrated>, ProviderError>) {
    if found.Err? then e == Provider(found.error)
    else if found.value.page.newIds != [] && metadata.Err? then e == Provider(metadata.error)
    else e == Database
  }

  // ---------------------------------------------------------------- the service

  class SyncService {
    const storage: Storage
    /** How the next statements go. */
    var faults: seq<Fault>

    constructor (storage: Storage, faults: seq<Fault>)
      ensures this.storage == storage && this.faults == faults
    {
      this.storage, this.faults := storage, faults;
    }

    method NextFault() returns (f: Fault)
      modifies `faults
      ensures f == Head(old(faults)) && faults == Drop(old(faults), 1)
    {
      f := Head(faults);
      faults := Drop(faults, 1);
    }

    /** An expired cursor is cleared, whether or not that succeeds, before the initial listing. */
    method FetchSyncPage(a: Uuid, cursor: Option<string>, d: Discovery) returns (r: Result<Found, ProviderError>)
      requires storage.Valid()
      modifies storage`accounts, `faults
      ensures storage.Valid()
      ensures r == Fetched(cursor, d)
      ensures storage.Tables() == Run(old(storage.Tables()), Tried(FetchWrites(a, cursor, d), old(faults)))
      ensures faults == Drop(old(faults), |FetchWrites(a, cursor, d)|)
      ensures storage.accounts.Keys == old(storage.accounts.Keys)
    {
      if cursor.None? {
        return AsInitial(d.initial);
      }
      match d.incremental
      case Ok(page) => r := Ok(Found(page, false));
      case Err(CursorExpired) =>
        var fault := NextFault();
        if fault != Refused {
          storage.ClearSyncCursor(a);
        }
        r := AsInitial(d.initial);
      case Err(e) => r := Err(e);
    }

    /** Discovery, repeated once with a fresh token when the provider rejects the first. */
    method Discover(a: Uuid, cursor: Option<string>, first: Discovery, second: Discovery)
      returns (r: Result<Found, ProviderError>)
      requires storage.Valid()
      modifies storage`accounts, `faults
      ensures storage.Valid()
      ensures r == Discovered(cursor, first, second)
      ensures var ws := DiscoveryWrites(a, cursor, first, second);
              && storage.Tables() == Run(old(storage.Tables()), Tried(ws, old(faults)))
              && faults == Drop(old(faults), |ws|)
      ensures storage.accounts.Keys == old(storage.accounts.Keys)
    {
      hide WF, Run, Tried, Drop;
      ghost var db0, fs := storage.Tables(), faults;
      ghost var xs, ys := FetchWrites(a, cursor, first), FetchWrites(a, cursor, second);
      r := FetchSyncPage(a, cursor, first);
      if r == Err(Unauthorized) {
        r := FetchSyncPage(a, cursor, second);
        TriedConcat(xs, ys, fs);
        RunConcat(db0, Tried(xs, fs), Tried(ys, Drop(fs, |xs|)));
        DropTwice(fs, |xs|, |ys|);
      } else {
        assert xs + [] == xs;
      }
    }

    /** Saves one answered message. */
    method SaveOne(a: Uuid, m: Metadata, now: int, ghost sofar: seq<(Uuid, Metadata)>) returns (id: Uuid)
      requires storage.Valid() && a in storage.accounts
      requires RowsExist(storage.emails, a, sofar, [])
      modifies storage`emails, storage`nextId
      ensures storage.Valid()
      ensures storage.Tables() == Apply(old(storage.Tables()), SaveEmail(a, m.ToIncoming(), now))
      ensures RowsExist(storage.emails, a, sofar + [(id, m)], [])
      ensures id in storage.emails
              && Hydration.HoldsAnswer(storage.emails[id], Hydration.At(old(storage.emails), id), a, m, now)
      ensures forall j | j != id :: Hydration.At(storage.emails, j) == Hydration.At(old(storage.emails), j)
    {
      ghost var mid := storage.Tables();
      forall j ensures var after := Apply(mid, SaveEmail(a, m.ToIncoming(), now));
        if j in after.emails && Hydration.IsMessage(after.emails[j], a, m.id)
        then Hydration.HoldsAnswer(after.emails[j], Hydration.At(mid.emails, j), a, m, now)
        else Hydration.At(after.emails, j) == Hydration.At(mid.emails, j)
      {
        Hydration.SavedAnswer(mid, a, m, now, j);
      }
      var r := storage.SaveEmail(a, m.ToIncoming(), now);
      SavingKeepsRows(mid, a, m.ToIncoming(), now);
      id := r.value;
    }

    /** Saves every answered message and notes whether an error must hold the cursor. */
    method Hydrate(a: Uuid, results: seq<Hydrated>, now: int)
      returns (ok: bool, newlySaved: seq<(Uuid, Metadata)>, held: bool)
      requires storage.Valid() && a in storage.accounts
      modifies storage`emails, storage`nextId, `faults
      ensures storage.Valid()
      ensures storage.Tables() == Run(old(storage.Tables()), Ran(SaveWrites(a, results, now), old(faults)))
      ensures faults == After(SaveWrites(a, results, now), old(faults))
      ensures ok <==> Clean(SaveWrites(a, results, now), old(faults))
      ensures ok ==> held == AnyHolds(results)
      ensures ok ==> Hydration.Hydrates(old(storage.emails), storage.emails, a, results)
      ensures ok ==> Metas(newlySaved) == ReadyOnly(results) && RowsExist(storage.emails, a, newlySaved, [])
    {
      hide WF, Run, Apply, RowsExist, Ran, After, Drop, Head, Clean, Hydration.Hydrates;
      ghost var db0, fs := storage.Tables(), faults;
      RunNothing(db0);
      NoRowsYet(storage.emails, a);
      NothingDue(fs);
      newlySaved, held, ok := [], false, true;
      for i := 0 to |results|
        invariant storage.Valid()
        invariant Clean(SaveWrites(a, results[..i], now), fs) && faults == After(SaveWrites(a, results[..i], now), fs)
        invariant storage.Tables() == Run(db0, SaveWrites(a, results[..i], now))
        invariant held == AnyHolds(results[..i])
        invariant Metas(newlySaved) == ReadyOnly(results[..i]) && RowsExist(storage.emails, a, newlySaved, [])
      {
        ghost var done := SaveWrites(a, results[..i], now);
        assert results[..i + 1][..i] == results[..i];
        HoldsGrow(results, i);
        ghost var rest := SavesSplit(a, results, now, i);
        match results[i] {
          case Ready(m) =>
            ghost var w := SaveEmail(a, m.ToIncoming(), now);
            RunOneMore(db0, done, w);
            var fault := NextFault();
            if fault != Healthy {
              FailingStatement(done, w, rest, fs);
            } else {
              HealthyStatement(done, w, fs);
            }
            if fault == Refused {
              return false, newlySaved, held;
            }
            var id := SaveOne(a, m, now, newlySaved);
            if fault == LostReply {
              return false, newlySaved, held;
            }
            newlySaved := newlySaved + [(id, m)];
          case Failed(text) =>
            assert SaveWrites(a, results[..i + 1], now) == done;
            held := held || !IsNotFoundError(text);
        }
      }
      assert results[..|results|] == results;
      RanIsPrefix(SaveWrites(a, results, now), fs);
      Hydration.SavedBatch(db0, a, results, now);
    }

    /** Messages the server moved to the trash. */
    method MarkAllTrashed(a: Uuid, ids: seq<string>, now: int) returns (ok: bool)
      requires storage.Valid()
      modifies storage`emails, `faults
      ensures storage.Valid()
      ensures storage.Tables() == Run(old(storage.Tables()), Ran(TrashWrites(a, ids, now), old(faults)))
      ensures faults == After(TrashWrites(a, ids, now), old(faults))
      ensures ok <==> Clean(TrashWrites(a, ids, now), old(faults))
    {
      hide WF, Run, Apply, Ran, After, Drop, Head;
      ghost var db0, fs, all := storage.Tables(), faults, TrashWrites(a, ids, now);
      RunNothing(db0);
      NothingDue(fs);
      for i := 0 to |ids|
        invariant storage.Valid() && Clean(all[..i], fs) && faults == After(all[..i], fs)
        invariant storage.Tables() == Run(db0, all[..i])
      {
        Step(db0, all, i, fs);
        var fault := NextFault();
        if fault == Refused {
          return false;
        }
        storage.MarkTrashed(a, ids[i], now);
        if fault == LostReply {
          return false;
        }
      }
      Finished(all, fs);
      ok := true;
    }

    /** Messages the server restored. */
    method MarkAllUntrashed(a: Uuid, ids: seq<string>) returns (ok: bool)
      requires storage.Valid()
      modifies storage`emails, `faults
      ensures storage.Valid()
      ensures storage.Tables() == Run(old(storage.Tables()), Ran(RestoreWrites(a, ids), old(faults)))
      ensures faults == After(RestoreWrites(a, ids), old(faults))
      ensures ok <==> Clean(RestoreWrites(a, ids), old(faults))
    {
      hide WF, Run, Apply, Ran, After, Drop, Head;
      ghost var db0, fs, all := storage.Tables(), faults, RestoreWrites(a, ids);
      RunNothing(db0);
      NothingDue(fs);
      for i := 0 to |ids|
        invariant storage.Valid() && Clean(all[..i], fs) && faults == After(all[..i], fs)
        invariant storage.Tables() == Run(db0, all[..i])
      {
        Step(db0, all, i, fs);
        var fault := NextFault();
        if fault == Refused {
          return false;
        }
        storage.MarkUntrashed(a, ids[i]);
        if fault == LostReply {
          return false;
        }
      }
      Finished(all, fs);
      ok := true;
    }

    /** Messages the server deleted for good. */
    method DeleteAll(a: Uuid, ids: seq<string>) returns (ok: bool)
      requires storage.Valid()
      modifies storage`emails, storage`classifications, `faults
      ensures storage.Valid()
      ensures storage.Tables() == Run(old(storage.Tables()), Ran(DeleteWrites(a, ids), old(faults)))
      ensures faults == After(DeleteWrites(a, ids), old(faults))
      ensures ok <==> Clean(DeleteWrites(a, ids), old(faults))
    {
      hide WF, Run, Apply, Ran, After, Drop, Head;
      ghost var db0, fs, all := storage.Tables(), faults, DeleteWrites(a, ids);
      RunNothing(db0);
      NothingDue(fs);
      for i := 0 to |ids|
        invariant storage.Valid() && Clean(all[..i], fs) && faults == After(all[..i], fs)
        invariant storage.Tables() == Run(db0, all[..i])
      {
        Step(db0, all, i, fs);
        var fault := NextFault();
        if fault == Refused {
          return false;
        }
        storage.DeleteByProviderMessageId(a, ids[i]);
        if fault == LostReply {
          return false;
        }
      }
      Finished(all, fs);
      ok := true;
    }

    /** Trash, then restorations, then deletions reported by the server. */
    method MarkRemoteChanges(a: Uuid, page: SyncPage, now: int) returns (ok: bool)
      requires storage.Valid()
      modifies storage`emails, storage`classifications, `faults
      ensures storage.Valid()
      ensures storage.Tables() == Run(old(storage.Tables()), Ran(MarkWrites(a, page, now), old(faults)))
      ensures faults == After(MarkWrites(a, page, now), old(faults))
      ensures ok <==> Clean(MarkWrites(a, page, now), old(faults))
    {
      ghost var db0, fs := storage.Tables(), faults;
      ghost var t, r := TrashWrites(a, page.trashedIds, now), RestoreWrites(a, page.restoredIds);
      ghost var d := DeleteWrites(a, page.deletedIds);
      assert MarkWrites(a, page, now) == t + r + d;
      hide WF, Run, Ran, After, Clean, MarkWrites, TrashWrites, RestoreWrites, DeleteWrites;
      RunRanConcat(db0, t + r, d, fs);
      RanConcat(t + r, d, fs);
      RunRanConcat(db0, t, r, fs);
      RanConcat(t, r, fs);
      ok := MarkAllTrashed(a, page.trashedIds, now);
      if !ok {
        return;
      }
      ok := MarkAllUntrashed(a, page.restoredIds);
      if !ok {
        return;
      }
      ok := DeleteAll(a, page.deletedIds);
    }

    method AdvanceCursor(a: Uuid, page: SyncPage, ghost results: seq<Hydrated>, held: bool, now: int) returns (ok: bool)
      requires storage.Valid() && held == AnyHolds(results)
      modifies storage`accounts, `faults
      ensures storage.Valid()
      ensures storage.Tables() == Run(old(storage.Tables()), Ran(CursorWrites(a, page, results, now), old(faults)))
      ensures faults == After(CursorWrites(a, page, results, now), old(faults))
      ensures ok <==> Clean(CursorWrites(a, page, results, now), old(faults))
    {
      ok := true;
      if !held {
        ghost var w := UpdateCursor(a, page.nextCursor, now);
        assert [w][1..] == [];
        var fault := NextFault();
        if fault != Refused {
          storage.UpdateSyncCursor(a, page.nextCursor, now);
        }
        ok := fault == Healthy;
      }
    }

    /** Applies a discovered page: saves, marks and cursor, up to the first statement that reports a failure. */
    method ApplyPage(a: Uuid, page: SyncPage, results: seq<Hydrated>, now: int)
      returns (ok: bool, newlySaved: seq<(Uuid, Metadata)>)
      requires storage.Valid() && a in storage.accounts
      modifies storage`accounts, storage`emails, storage`classifications, storage`nextId, `faults
      ensures storage.Valid()
      ensures storage.Tables() == Run(old(storage.Tables()), Ran(PassWrites(a, page, results, now), old(faults)))
      ensures faults == After(PassWrites(a, page, results, now), old(faults))
      ensures ok <==> Clean(PassWrites(a, page, results, now), old(faults))
      ensures ok ==> Metas(newlySaved) == ReadyOnly(results)
                     && RowsExist(storage.emails, a, newlySaved, page.deletedIds)
    {
      ghost var fs, db1 := faults, storage.Tables();
      ghost var saves, marks := SaveWrites(a, results, now), MarkWrites(a, page, now);
      ghost var last := CursorWrites(a, page, results, now);
      assert PassWrites(a, page, results, now) == saves + (marks + last);
      hide WF, Run, Ran, After, Clean, RowsExist, PassWrites, SaveWrites, MarkWrites, CursorWrites, MarkOrCursor;
      RunRanConcat(db1, saves, marks + last, fs);
      RanConcat(saves, marks + last, fs);
      var held;
      ok, newlySaved, held := Hydrate(a, results, now);
      if !ok {
        return;
      }
      ghost var db2, fs2 := storage.Tables(), faults;
      RunRanConcat(db2, marks, last, fs2);
      RanConcat(marks, last, fs2);
      ok := MarkRemoteChanges(a, page, now);
      if !ok {
        return;
      }
      ok := AdvanceCursor(a, page, results, held, now);
      if ok {
        RanIsPrefix(marks + last, fs2);
        RowsNeedLess(db2.emails, a, newlySaved, page.deletedIds);
        MarksAreMarks(a, page, results, now);
        MarksKeepRows(db2, a, page, marks + last, newlySaved);
      }
    }

    /**
     * One pass up to its cursor update. Whatever the provider answers and whichever statements fail:
     * discovery's statements are tried, and the due ones run up to the first that reports a failure.
     * The pass succeeds exactly when discovery and the batch request did and no due statement failed.
     */
    method SyncOneAccountInner(a: Uuid, first: Discovery, second: Discovery,
                               metadata: Result<seq<Hydrated>, ProviderError>, now: int)
      returns (r: Result<(seq<(Uuid, Metadata)>, Found), SyncError>)
      requires storage.Valid() && a in storage.accounts
      modifies storage`accounts, storage`emails, storage`classifications, storage`nextId, `faults
      ensures storage.Valid()
      ensures var cursor, fs := old(storage.accounts[a].cursor), old(faults);
              var tried, found := DiscoveryWrites(a, cursor, first, second), Discovered(cursor, first, second);
              var due := DueWrites(a, found, metadata, now);
              && storage.Tables() == Run(Run(old(storage.Tables()), Tried(tried, fs)), Ran(due, Drop(fs, |tried|)))
              && faults == After(due, Drop(fs, |tried|))
              && (r.Ok? <==> found.Ok? && Answered(found.value.page, metadata).Some? && Clean(due, Drop(fs, |tried|)))
              && (r.Ok? ==> r.value.1 == found.value
                            && Metas(r.value.0) == ReadyOnly(Answered(found.value.page, metadata).value)
                            && RowsExist(storage.emails, a, r.value.0, found.value.page.deletedIds))
              && (r.Err? ==> Explains(r.error, found, metadata))
    {
      hide WF, Run, Tried, Ran, After, Clean, Drop, RowsExist, Discovered, DiscoveryWrites, PassWrites, ReadyOnly;
      var cursor := storage.accounts[a].cursor;
      var found := Discover(a, cursor, first, second);
      RunNothing(storage.Tables());
      NothingDue(faults);
      if found.Err? {
        return Err(Provider(found.error));
      }
      var page := found.value.page;
      var results := [];
      if page.newIds != [] {
        match metadata
        case Err(e) => return Err(Provider(e));
        case Ok(answers) => results := answers;
      }
      var ok, newlySaved := ApplyPage(a, page, results, now);
      r := if ok then Ok((newlySaved, found.value)) else Err(Database);
    }

    method SaveMatches(matches: seq<Match>, now: int)
      requires storage.Valid()
      modifies storage`classifications, storage`nextId
      ensures storage.Valid() && storage.Tables() == Run(old(storage.Tables()), MatchWrites(matches, now))
    {
      hide WF, Run, Apply;
      ghost var db0, all := storage.Tables(), MatchWrites(matches, now);
      RunNothing(db0);
      for i := 0 to |matches|
        invariant storage.Valid() && storage.Tables() == Run(db0, all[..i])
      {
        assert all[..i + 1] == all[..i] + [all[i]];
        RunOneMore(db0, all[..i], all[i]);
        var _ := storage.SaveClassification(matches[i].email, matches[i].criterion, Some(matches[i].confidence), now);
      }
      assert all[..|matches|] == all;
    }

    /**
     * The classification pass over the newly saved rows, with its tasks interleaved in any way, and
     * then the purge. Saving a match and purging may fail without consequences for the pass.
     */
    method ClassifyAndPurge(a: Uuid, rows: seq<(Uuid, Metadata)>, isInitial: bool, active: seq<Uuid>,
                            steps: seq<ClassifyPass.Step>, maxInbox: int, maxFindings: int, now: int)
      returns (matches: seq<Match>)
      requires storage.Valid() && ListsActive(storage.criteria, active)
      modifies storage`emails, storage`classifications, storage`nextId, `faults
      ensures storage.Valid()
      ensures var p := ClassifyPass.Pass(Labels(storage.criteria, active), isInitial, |rows|);
              var saved := ClassifyPass.Run(p, ClassifyPass.Init(p), steps).saved;
              && InRange(saved, |rows|, |active|)
              && matches == ToMatches(saved, rows, active)
      ensures exists p ::
                && PassOver(p, |rows|, storage.criteria, active, isInitial)
                && AcceptedMatches(matches, p, steps, rows, active)
      ensures forall m | m in matches ::
                && m.criterion in storage.criteria && storage.criteria[m.criterion].isActive
                && 0.5 <= m.confidence <= 1.0 && exists i | 0 <= i < |rows| :: rows[i].0 == m.email
      ensures storage.Tables() == Run(Run(old(storage.Tables()), MatchWrites(matches, now)),
                                      Ran(TrimWrites(a, maxInbox, maxFindings), old(faults)))
    {
      hide WF, Run, Apply;
      var p := ClassifyPass.Pass(Labels(storage.criteria, active), isInitial, |rows|);
      MatchesNameSavedRows(p, steps, rows, active);
      ToMatchesIff(p, steps, rows, active);
      assert PassOver(p, |rows|, storage.criteria, active, isInitial);
      hide AcceptedMatches, PassOver, ClassifyPass.Run, MatchWrites;
      matches := ToMatches(ClassifyPass.Run(p, ClassifyPass.Init(p), steps).saved, rows, active);
      SaveMatches(matches, now);
      ghost var db1, fs := storage.Tables(), faults;
      TrimsRan(db1, a, maxInbox, maxFindings, fs);
      var first := NextFault();
      var second := NextFault();
      var _ := storage.PurgeOldEmails(a, maxInbox, maxFindings, first, second);
    }

    /** A whole pass; a failure is recorded on the account, when that statement succeeds. */
    method SyncOneAccount(a: Uuid, first: Discovery, second: Discovery, metadata: Result<seq<Hydrated>, ProviderError>,
                          active: seq<Uuid>, steps: seq<ClassifyPass.Step>, maxInbox: int, maxFindings: int,
                          text: string, now: int)
      returns (r: Result<seq<Match>, SyncError>)
      requires storage.Valid() && a in storage.accounts && ListsActive(storage.criteria, active)
      modifies storage`accounts, storage`emails, storage`classifications, storage`nextId, `faults
      ensures storage.Valid()
      ensures var cursor, fs := old(storage.accounts[a].cursor), old(faults);
              var tried, found := DiscoveryWrites(a, cursor, first, second), Discovered(cursor, first, second);
              var due, fs1 := DueWrites(a, found, metadata, now), Drop(fs, |tried|);
              var inner := Run(Run(old(storage.Tables()), Tried(tried, fs)), Ran(due, fs1));
              && (r.Ok? <==> found.Ok? && Answered(found.value.page, metadata).Some? && Clean(due, fs1))
              && (r.Err? ==> Explains(r.error, found, metadata))
              && (r.Ok? ==> ClassifiesItsRows(r.value, inner, a, found.value,
                                              Answered(found.value.page, metadata).value, active, steps))
              && storage.Tables() == match r {
                   case Ok(matches) =>
                     Run(Run(inner, MatchWrites(matches, now)),
                         Ran(TrimWrites(a, maxInbox, maxFindings), After(due, fs1)))
                   case Err(_) => Run(inner, Tried([SetSyncError(a, text)], After(due, fs1)))
                 }
    {
      hide WF, Run, Ran, After, Clean, DueWrites;
      var pass := SyncOneAccountInner(a, first, second, metadata, now);
      if pass.Err? {
        ghost var mid := storage.Tables();
        RunNothing(mid);
        RunOneMore(mid, [], SetSyncError(a, text));
        assert [] + [SetSyncError(a, text)] == [SetSyncError(a, text)];
        assert Tried([SetSyncError(a, text)], faults) == if Head(faults).Refused? then [] else [SetSyncError(a, text)];
        var fault := NextFault();
        if fault != Refused {
          storage.SetSyncError(a, text);
        }
        return Err(pass.error);
      }
      var (rows, found) := pass.value;
      ghost var inner := storage.Tables();
      ReadyRows(rows, Answered(found.page, metadata).value);
      var matches := ClassifyAndPurge(a, rows, found.isInitial, active, steps, maxInbox, maxFindings, now);
      assert ClassifiesItsRows(matches, inner, a, found, Answered(found.page, metadata).value, active, steps);
      r := Ok(matches);
    }
  }

  // ---------------------------------------------------------------- small steps of the methods

  /** The attempt that a pass with these answers and faults makes, before any error is recorded. */
  function AttemptOf(a: Uuid, cursor: Option<string>, first: Discovery, second: Discovery,
                     metadata: Result<seq<Hydrated>, ProviderError>, now: int, fs: seq<Fault>): HeldCursor.Attempt {
    var tried, found := DiscoveryWrites(a, cursor, first, second), Discovered(cursor, first, second);
    var cleared, ran := |Tried(tried, fs)|, |Ran(DueWrites(a, found, metadata, now), Drop(fs, |tried|))|;
    match found
    case Err(_) => HeldCursor.Attempt(NOTHING_FOUND, [], now, ran, cleared, [], None)
    case Ok(f) =>
      match Answered(f.page, metadata)
      case None => HeldCursor.Attempt(NOTHING_FOUND, [], now, ran, cleared, [], None)
      case Some(results) => HeldCursor.Attempt(f.page, results, now, ran, cleared, [], None)
  }

  const NOTHING_FOUND := SyncPage([], [], [], [], "")

  /**
   * Every pass that did not execute its cursor update is one of the attempts a clean pass may repair,
   * whatever its discoveries and its batch request answered and wherever it stopped: with its error
   * recorded, or, when only the cursor was held, with the matches of its classification.
   */
  lemma StoppedPassIsAttempt(a: Uuid, cursor: Option<string>, first: Discovery, second: Discovery,
                             metadata: Result<seq<Hydrated>, ProviderError>, now: int, fs: seq<Fault>, text: string,
                             matches: seq<Match>)
    ensures var tried := DiscoveryWrites(a, cursor, first, second);
            var due := DueWrites(a, Discovered(cursor, first, second), metadata, now);
            var ran, t := Ran(due, Drop(fs, |tried|)), AttemptOf(a, cursor, first, second, metadata, now, fs);
            || Replay.MovesCursor(ran)
            || (&& Tried(tried, fs) + ran == HeldCursor.AttemptWrites(a, t)
                && Tried(tried, fs) + ran + [SetSyncError(a, text)]
                   == HeldCursor.AttemptWrites(a, t.(error := Some(text)))
                && Tried(tried, fs) + ran + MatchWrites(matches, now)
                   == HeldCursor.AttemptWrites(a, t.(matches := matches)))
  {
    var tried, found := DiscoveryWrites(a, cursor, first, second), Discovered(cursor, first, second);
    var due, t := DueWrites(a, found, metadata, now), AttemptOf(a, cursor, first, second, metadata, now, fs);
    var ran := Ran(due, Drop(fs, |tried|));
    TriedClearings(a, tried, fs);
    hide HeldCursor.AttemptWrites, HeldCursor.Clearings, MatchWrites, DiscoveryWrites, Discovered, Tried;
    if !Replay.MovesCursor(ran) {
      if found.Ok? && Answered(found.value.page, metadata).Some? {
        StoppedBeforeCursor(a, t.page, t.results, now, Drop(fs, |tried|));
      }
      assert HeldCursor.ContentRan(a, t) == ran;
      AttemptInParts(a, t, text, matches);
    }
  }

  lemma AttemptInParts(a: Uuid, t: HeldCursor.Attempt, text: string, matches: seq<Match>)
    requires t.matches == [] && t.error == None
    ensures var ws := HeldCursor.Clearings(a, t.cleared) + HeldCursor.ContentRan(a, t);
            && HeldCursor.AttemptWrites(a, t) == ws
            && HeldCursor.AttemptWrites(a, t.(error := Some(text))) == ws + [SetSyncError(a, text)]
            && HeldCursor.AttemptWrites(a, t.(matches := matches)) == ws + MatchWrites(matches, t.now)
  {
    assert MatchWrites([], t.now) == [];
    hide HeldCursor.Clearings, MatchWrites;
  }

  /**
   * What a pass without a failing statement leaves, from its discovered page and its answers: each message's row as
   * the page and the answers say, and the page's cursor on the account, unless some answer held it.
   */
  lemma CleanPassLeaves(db: Db, a: Uuid, found: Found, metadata: Result<seq<Hydrated>, ProviderError>, now: int,
                        fs: seq<Fault>, answers: seq<Hydrated>, p: string)
    requires WF(db) && a in db.accounts
    requires if found.page.newIds == [] then answers == [] else metadata == Ok(answers)
    requires Clean(DueWrites(a, Ok(found), metadata, now), fs)
    ensures var after := Run(db, Ran(DueWrites(a, Ok(found), metadata, now), fs));
            && Row(after, a, p) == Replay.PassRow(Row(db, a, p), found.page, answers, p)
            && after.accounts == if AnyHolds(answers) then db.accounts
                                 else db.accounts[a := db.accounts[a].Synced(found.page.nextCursor, now)]
  {
    AnsweredIff(found.page, metadata, answers);
    var ws := PassWrites(a, found.page, answers, now);
    RanIsPrefix(ws, fs);
    Replay.CursorMovesOnlyOnCleanPass(db, a, found.page, answers, now, |ws|);
    forall w | w in ws ensures IsPassWrite(w, a) {
      Replay.PassWritesArePassWrites(a, found.page, answers, now, w);
    }
    RowAfterRun(db, ws, a, a, p);
    Replay.PassOnRow(Row(db, a, p), a, found.page, answers, now, p);
    hide WF, PassWrites, Run, Ran, Clean;
    assert ws[..|ws|] == ws;
  }

  lemma {:induction false} TriedClearings(a: Uuid, ws: seq<Write>, fs: seq<Fault>)
    requires forall w | w in ws :: w == ClearCursor(a)
    ensures Tried(ws, fs) == HeldCursor.Clearings(a, |Tried(ws, fs)|)
    decreases |ws|
  {
    if ws != [] {
      assert ws[0] in ws && forall w | w in ws[1..] :: w in ws;
      TriedClearings(a, ws[1..], Drop(fs, 1));
      var n := |Tried(ws[1..], Drop(fs, 1))|;
      assert [ClearCursor(a)] + HeldCursor.Clearings(a, n) == HeldCursor.Clearings(a, n + 1);
    }
  }

  lemma StoppedBeforeCursor(a: Uuid, page: SyncPage, results: seq<Hydrated>, now: int, fs: seq<Fault>)
    ensures var ran := Ran(PassWrites(a, page, results, now), fs);
            Replay.MovesCursor(ran) || ran <= ContentWrites(a, page, results, now)
  {
    var all, content := PassWrites(a, page, results, now), ContentWrites(a, page, results, now);
    RanIsPrefix(all, fs);
    var ran := Ran(all, fs);
    if |ran| > |content| {
      assert ran[|content|] == UpdateCursor(a, page.nextCursor, now);
      assert ran[|content|] in ran;
    }
  }

  lemma NothingDue(fs: seq<Fault>)
    ensures Ran([], fs) == [] && After([], fs) == fs && Clean([], fs)
  {
  }

  /** Statement `i` of a list, after those before it ran cleanly. */
  lemma Step(db: Db, all: seq<Write>, i: nat, fs: seq<Fault>)
    requires i < |all| && Clean(all[..i], fs)
    ensures var fault, left := Head(After(all[..i], fs)), Drop(After(all[..i], fs), 1);
            if fault.Healthy? then Clean(all[..i + 1], fs) && After(all[..i + 1], fs) == left
            else
              && !Clean(all, fs) && After(all, fs) == left
              && Ran(all, fs) == if fault.Refused? then all[..i] else all[..i + 1]
    ensures Run(db, all[..i + 1]) == Apply(Run(db, all[..i]), all[i])
  {
    hide Run, Apply, Ran, After, Drop, Head;
    assert all[..i + 1] == all[..i] + [all[i]];
    assert all == all[..i] + [all[i]] + all[i + 1..];
    RunOneMore(db, all[..i], all[i]);
    if Head(After(all[..i], fs)).Healthy? {
      HealthyStatement(all[..i], all[i], fs);
    } else {
      FailingStatement(all[..i], all[i], all[i + 1..], fs);
    }
  }

  lemma Finished(all: seq<Write>, fs: seq<Fault>)
    requires Clean(all[..|all|], fs)
    ensures all[..|all|] == all && Clean(all, fs) && Ran(all, fs) == all
  {
    assert all[..|all|] == all;
    RanIsPrefix(all, fs);
  }

  /** The purge as a list of two statements. */
  lemma TrimsRan(db: Db, a: Uuid, maxInbox: int, maxFindings: int, fs: seq<Fault>)
    ensures var first, second := Head(fs), Head(Drop(fs, 1));
            var mid := if first.Refused? then db else Apply(db, TrimInbox(a, maxInbox));
            Run(db, Ran(TrimWrites(a, maxInbox, maxFindings), fs))
            == if first.Healthy? && !second.Refused? then Apply(mid, TrimFindings(a, maxFindings)) else mid
  {
    var x, y := TrimInbox(a, maxInbox), TrimFindings(a, maxFindings);
    hide Apply, Head, Drop, Run;
    assert [x, y][1..] == [y];
    LastOfList(y, Drop(fs, 1));
    RunNothing(db);
    RunOneMore(db, [], x);
    RunOneMore(db, [x], y);
    assert [] + [x] == [x] && [x] + [y] == [x, y] && [x] + [] == [x];
  }

  lemma LastOfList(w: Write, fs: seq<Fault>)
    ensures Ran([w], fs) == if Head(fs).Refused? then [] else [w]
  {
    hide Head, Drop;
    assert [w][1..] == [];
  }

  lemma RowsNeedLess(emails: map<Uuid, Email>, a: Uuid, saved: seq<(Uuid, Metadata)>, deleted: seq<string>)
    requires RowsExist(emails, a, saved, [])
    ensures RowsExist(emails, a, saved, deleted)
  {
  }

  lemma SavingKeepsRows(db: Db, a: Uuid, m: Incoming, now: int)
    requires WF(db)
    ensures var after := Apply(db, SaveEmail(a, m, now));
            && (forall id | id in db.emails :: id in after.emails && SameKey(db.emails[id], after.emails[id]))
            && after.accounts == db.accounts
  {
    hide WF;
    assert db.nextId !in db.emails by { NextIdIsNew(db); }
  }

  lemma NextIdIsNew(db: Db)
    requires WF(db)
    ensures db.nextId !in db.emails
  {
  }
}
