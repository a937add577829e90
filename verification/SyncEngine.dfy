/**
 * One synchronization pass as the list of statements it issues, and why a pass that failed
 * half-way can be repeated safely.
 */
module SyncEngine {
  import opened Prelude
  import opened Text
  import opened Store

  datatype Metadata = Metadata(
    id: string,
    subject: string,
    sender: string,
    receivedAt: int,
    isRead: bool,
    snippet: Option<string>)
  {
    function ToIncoming(): Incoming {
      Incoming(id, Some(subject), Some(sender), receivedAt, isRead, snippet)
    }
  }

  /** The provider's answer for one message: its metadata, or the text of an error. */
  datatype Hydrated = Ready(meta: Metadata) | Failed(text: string)

  datatype ProviderError = CursorExpired | Unauthorized | RateLimited | InvalidData(text: string) | Other(text: string)

  /** What one discovery reports. */
  datatype SyncPage = SyncPage(
    newIds: seq<string>,
    trashedIds: seq<string>,
    deletedIds: seq<string>,
    restoredIds: seq<string>,
    nextCursor: string)

  // ---------------------------------------------------------------- what holds the cursor

  /** The engine recognises a missing message by the text of the error. */
  predicate IsNotFoundError(text: string) {
    Contains(text, "404") || Contains(text, "Not Found") || Contains(text, "NotFound")
  }

  predicate HoldsCursor(r: Hydrated) {
    r.Failed? && !IsNotFoundError(r.text)
  }

  predicate AnyHolds(results: seq<Hydrated>) {
    exists i | 0 <= i < |results| :: HoldsCursor(results[i])
  }

  // ---------------------------------------------------------------- which failures hold it

  /** A character of none of the three markers. */
  predicate Separates(c: char) {
    c !in "404" && c !in "Not Found" && c !in "NotFound"
  }

  lemma NotFoundAcross(left: string, sep: char, right: string)
    requires Separates(sep)
    ensures IsNotFoundError(left + [sep] + right) <==> IsNotFoundError(left) || IsNotFoundError(right)
  {
    ContainsAcross(left, sep, right, "404");
    ContainsAcross(left, sep, right, "Not Found");
    ContainsAcross(left, sep, right, "NotFound");
  }

  /**
   * A text that quotes an identifier between two separators: the cursor is held exactly when
   * neither the identifier nor the text around it contains a marker.
   */
  lemma QuotedErrorHoldsIff(before: string, x: char, id: string, y: char, after: string)
    requires Separates(x) && Separates(y)
    ensures HoldsCursor(Failed(before + [x] + id + [y] + after))
       <==> !IsNotFoundError(before) && !IsNotFoundError(id) && !IsNotFoundError(after)
  {
    NotFoundAcross(before + [x] + id, y, after);
    NotFoundAcross(before, x, id);
  }

  /** In particular an identifier that contains a marker releases it, whatever the text around it. */
  lemma QuotedIdentifierReleasesCursor(before: string, id: string, after: string, marker: string)
    requires marker in {"404", "Not Found", "NotFound"} && Contains(id, marker)
    ensures !HoldsCursor(Failed(before + id + after))
  {
    ContainsWithin(before, id, after, marker);
  }

  ghost predicate StandsIn(text: string, marker: string) {
    exists before, after :: text == before + marker + after
  }

  /** A failure releases the cursor exactly when one of the three markers stands somewhere in its text. */
  lemma ReleasesIffMarked(text: string)
    ensures !HoldsCursor(Failed(text))
       <==> StandsIn(text, "404") || StandsIn(text, "Not Found") || StandsIn(text, "NotFound")
  {
    ContainsIffStands(text, "404");
    ContainsIffStands(text, "Not Found");
    ContainsIffStands(text, "NotFound");
  }

  lemma ContainsIffStands(text: string, marker: string)
    ensures Contains(text, marker) <==> StandsIn(text, marker)
  {
    if Contains(text, marker) {
      var i :| 0 <= i <= |text| - |marker| && OccursAt(text, marker, i);
      assert text == text[..i] + marker + text[i + |marker|..];
    }
    if before, after :| text == before + marker + after {
      assert OccursAt(text, marker, |before|);
    }
  }

  lemma NotFoundPadded(cause: string)
    ensures IsNotFoundError(" " + cause + " ") <==> IsNotFoundError(cause)
  {
    ContainsPadded(' ', cause, "404");
    ContainsPadded(' ', cause, "Not Found");
    ContainsPadded(' ', cause, "NotFound");
  }

  /** Text that cannot take part in a marker. */
  predicate Plain(s: string) {
    forall i | 0 <= i < |s| :: s[i] != '4' && s[i] != 'N'
  }

  lemma PlainIsHarmless(s: string)
    requires Plain(s)
    ensures !IsNotFoundError(s)
  {
    forall i, part | 0 <= i <= |s| - |part| && part in {"404", "Not Found", "NotFound"}
      ensures !OccursAt(s, part, i)
    {
      assert s[i..i + |part|][0] == s[i];
    }
  }

  lemma PlainConcat(s: string, t: string)
    requires Plain(s) && Plain(t)
    ensures Plain(s + t)
  {
  }

  /** The request for one message's metadata: its address before and after the identifier. */
  datatype Endpoint = Endpoint(base: string, query: string)

  function GmailEndpoint(): Endpoint {
    Endpoint("https://gmail.googleapis.com" + "/gmail/v1/users/me/messages",
             "format=metadata&metadataHeaders=Subject" + "&metadataHeaders=From")
  }

  function GraphEndpoint(): Endpoint {
    Endpoint("https://graph.microsoft.com" + "/v1.0/me/messages",
             "$select=subject,from,receivedDateTime" + ",isRead,bodyPreview")
  }

  lemma GmailPiecesArePlain()
    ensures Plain("https://gmail.googleapis.com") && Plain("/gmail/v1/users/me/messages")
    ensures Plain("format=metadata&metadataHeaders=Subject") && Plain("&metadataHeaders=From")
  {
  }

  lemma GraphPiecesArePlain()
    ensures Plain("https://graph.microsoft.com") && Plain("/v1.0/me/messages")
    ensures Plain("$select=subject,from,receivedDateTime") && Plain(",isRead,bodyPreview")
  {
  }

  lemma AddressesArePlain()
    ensures Plain(GmailEndpoint().base) && Plain(GmailEndpoint().query)
    ensures Plain(GraphEndpoint().base) && Plain(GraphEndpoint().query)
  {
    GmailPiecesArePlain();
    GraphPiecesArePlain();
    hide Plain;
    PlainConcat("https://gmail.googleapis.com", "/gmail/v1/users/me/messages");
    PlainConcat("format=metadata&metadataHeaders=Subject", "&metadataHeaders=From");
    PlainConcat("https://graph.microsoft.com", "/v1.0/me/messages");
    PlainConcat("$select=subject,from,receivedDateTime", ",isRead,bodyPreview");
  }

  /** A failed request reads "network or provider error: <cause> for url (<base>/<id>?<query>)". */
  function RequestFailure(e: Endpoint, cause: string, id: string): string {
    FailureText("network or provider error", " " + cause + " ", "or url ", e.base, id, e.query)
  }

  /** The same text cut at characters that separate. */
  function FailureText(start: string, cause: string, joint: string, base: string, id: string, query: string): string {
    start + ":" + cause + "f" + joint + "(" + base + "/" + id + "?" + query + ")"
  }

  lemma NotFoundInParts(start: string, cause: string, joint: string, base: string, id: string, query: string)
    ensures IsNotFoundError(FailureText(start, cause, joint, base, id, query))
       <==> IsNotFoundError(start) || IsNotFoundError(cause) || IsNotFoundError(joint) || IsNotFoundError(base)
            || IsNotFoundError(id) || IsNotFoundError(query) || IsNotFoundError("")
  {
    hide IsNotFoundError;
    NotFoundAcross(start, ':', cause);
    var s1 := start + ":" + cause;
    NotFoundAcross(s1, 'f', joint);
    var s2 := s1 + "f" + joint;
    NotFoundAcross(s2, '(', base);
    var s3 := s2 + "(" + base;
    NotFoundAcross(s3, '/', id);
    var s4 := s3 + "/" + id;
    NotFoundAcross(s4, '?', query);
    var s5 := s4 + "?" + query;
    NotFoundAcross(s5, ')', "");
    assert FailureText(start, cause, joint, base, id, query) == s5 + ")" + "";
  }

  /**
   * Exactly when a failed request for one message holds the cursor: neither its cause nor the
   * message's own identifier contains a marker. The label and the two addresses are harmless.
   */
  lemma RequestFailureHoldsIff(e: Endpoint, cause: string, id: string)
    requires e == GmailEndpoint() || e == GraphEndpoint()
    ensures HoldsCursor(Failed(RequestFailure(e, cause, id))) <==> !IsNotFoundError(cause) && !IsNotFoundError(id)
  {
    AddressesArePlain();
    LabelsArePlain();
    hide IsNotFoundError, GmailEndpoint, GraphEndpoint, FailureText, Plain;
    NotFoundPadded(cause);
    PlainIsHarmless("network or provider error");
    PlainIsHarmless("or url ");
    PlainIsHarmless("");
    PlainIsHarmless(e.base);
    PlainIsHarmless(e.query);
    NotFoundInParts("network or provider error", " " + cause + " ", "or url ", e.base, id, e.query);
  }

  /** An answer whose body cannot be read prints no address: "network or provider error: <cause>". */
  function AddresslessFailure(cause: string): string {
    "network or provider error" + ":" + (" " + cause)
  }

  /** Such a failure holds the cursor whatever the message's identifier is, unless its cause has a marker. */
  lemma AddresslessFailureHoldsIff(cause: string)
    ensures HoldsCursor(Failed(AddresslessFailure(cause))) <==> !IsNotFoundError(cause)
  {
    LabelsArePlain();
    PlainIsHarmless("network or provider error");
    NotFoundAcross("network or provider error", ':', " " + cause);
    NotFoundAfterSpace(cause);
    hide IsNotFoundError;
  }

  lemma NotFoundAfterSpace(cause: string)
    ensures IsNotFoundError(" " + cause) <==> IsNotFoundError(cause)
  {
    forall part | part in {"404", "Not Found", "NotFound"}
      ensures Contains(cause, part) ==> Contains(" " + cause, part)
      ensures Contains(" " + cause, part) ==> Contains(" " + cause + " ", part)
    {
      if Contains(cause, part) {
        ContainsWithin(" ", cause, "", part);
        assert " " + cause + "" == " " + cause;
      }
      if Contains(" " + cause, part) {
        ContainsWithin("", " " + cause, " ", part);
        assert "" + (" " + cause) + " " == " " + cause + " ";
      }
    }
    NotFoundPadded(cause);
  }

  /** How one request fails: its cause, and whether the HTTP client prints the address with it. */
  datatype RequestError = RequestError(cause: string, quotesAddress: bool)
  {
    function Text(e: Endpoint, id: string): string {
      if quotesAddress then RequestFailure(e, cause, id) else AddresslessFailure(cause)
    }
  }

  /** Every failed request holds the cursor unless its cause, or the identifier it quotes, has a marker. */
  lemma AnyFailureHoldsIff(e: Endpoint, err: RequestError, id: string)
    requires e == GmailEndpoint() || e == GraphEndpoint()
    ensures HoldsCursor(Failed(err.Text(e, id)))
       <==> !IsNotFoundError(err.cause) && !(err.quotesAddress && IsNotFoundError(id))
  {
    hide IsNotFoundError;
    if err.quotesAddress {
      RequestFailureHoldsIff(e, err.cause, id);
    } else {
      AddresslessFailureHoldsIff(err.cause);
    }
  }

  lemma LabelsArePlain()
    ensures Plain("network or provider error") && Plain("or url ") && Plain("")
  {
  }

  /** Errors whose text does not depend on the message always hold the cursor. */
  lemma FixedErrorsHold()
    ensures HoldsCursor(Failed("rate limited by provider" + " (backoff requested)"))
    ensures HoldsCursor(Failed("access token or credentials" + " expired or invalid"))
    ensures HoldsCursor(Failed(AddresslessFailure("error decoding response body")))
  {
    assert Plain("rate limited by provider") && Plain(" (backoff requested)");
    assert Plain("access token or credentials") && Plain(" expired or invalid");
    assert Plain("error decoding response body");
    hide IsNotFoundError, Plain, AddresslessFailure;
    PlainConcat("rate limited by provider", " (backoff requested)");
    PlainConcat("access token or credentials", " expired or invalid");
    PlainIsHarmless("rate limited by provider" + " (backoff requested)");
    PlainIsHarmless("access token or credentials" + " expired or invalid");
    PlainIsHarmless("error decoding response body");
    AddresslessFailureHoldsIff("error decoding response body");
  }

  /** The same failure holds the cursor for one Gmail message and releases it for another. */
  lemma TransientFailureTakenForMissing()
    ensures HoldsCursor(Failed(RequestFailure(GmailEndpoint(), "error sending request", "18f1ab")))
    ensures !HoldsCursor(Failed(RequestFailure(GmailEndpoint(), "error sending request", "18f404ab")))
  {
    assert Plain("error sending request") && Plain("18f1ab");
    PlainIsHarmless("error sending request");
    PlainIsHarmless("18f1ab");
    assert OccursAt("18f404ab", "404", 3);
    assert IsNotFoundError("18f404ab");
    hide IsNotFoundError, GmailEndpoint, FailureText;
    RequestFailureHoldsIff(GmailEndpoint(), "error sending request", "18f1ab");
    RequestFailureHoldsIff(GmailEndpoint(), "error sending request", "18f404ab");
  }

  // ---------------------------------------------------------------- the statements of a pass

  function SaveWrites(a: Uuid, results: seq<Hydrated>, now: int): seq<Write> {
    if results == [] then []
    else
      SaveWrites(a, results[..|results| - 1], now)
      + match results[|results| - 1] {
          case Ready(m) => [SaveEmail(a, m.ToIncoming(), now)]
          case Failed(_) => []
        }
  }

  function TrashWrites(a: Uuid, ids: seq<string>, now: int): seq<Write> {
    seq(|ids|, i requires 0 <= i < |ids| => UpdateEmails(ByMessage(a, ids[i]), Trash(now)))
  }

  function RestoreWrites(a: Uuid, ids: seq<string>): seq<Write> {
    seq(|ids|, i requires 0 <= i < |ids| => UpdateEmails(ByMessage(a, ids[i]), Untrash))
  }

  function DeleteWrites(a: Uuid, ids: seq<string>): seq<Write> {
    seq(|ids|, i requires 0 <= i < |ids| => DeleteEmails(ByMessage(a, ids[i])))
  }

  function MarkWrites(a: Uuid, page: SyncPage, now: int): seq<Write> {
    TrashWrites(a, page.trashedIds, now) + RestoreWrites(a, page.restoredIds) + DeleteWrites(a, page.deletedIds)
  }

  function CursorWrites(a: Uuid, page: SyncPage, results: seq<Hydrated>, now: int): seq<Write> {
    if AnyHolds(results) then [] else [UpdateCursor(a, page.nextCursor, now)]
  }

  /** Everything but the cursor. */
  function ContentWrites(a: Uuid, page: SyncPage, results: seq<Hydrated>, now: int): seq<Write> {
    SaveWrites(a, results, now) + MarkWrites(a, page, now)
  }

  function PassWrites(a: Uuid, page: SyncPage, results: seq<Hydrated>, now: int): seq<Write> {
    ContentWrites(a, page, results, now) + CursorWrites(a, page, results, now)
  }

  /** A match that classification found for a stored email. */
  datatype Match = Match(email: Uuid, criterion: Uuid, confidence: real)

  function MatchWrites(matches: seq<Match>, now: int): seq<Write> {
    seq(|matches|, i requires 0 <= i < |matches| =>
      SaveClassification(matches[i].email, matches[i].criterion, Some(matches[i].confidence), now))
  }

  lemma {:induction false} SaveWriteShape(a: Uuid, results: seq<Hydrated>, now: int, w: Write)
    ensures w in SaveWrites(a, results, now)
       <==> exists i | 0 <= i < |results| :: results[i].Ready? && w == SaveEmail(a, results[i].meta.ToIncoming(), now)
  {
    if results != [] {
      var init := results[..|results| - 1];
      SaveWriteShape(a, init, now, w);
      if i :| 0 <= i < |results| && results[i].Ready? && w == SaveEmail(a, results[i].meta.ToIncoming(), now) {
        if i < |init| {
          assert init[i] == results[i];
        }
      }
      if i :| 0 <= i < |init| && init[i].Ready? && w == SaveEmail(a, init[i].meta.ToIncoming(), now) {
        assert results[i] == init[i];
      }
    }
  }

  lemma MarkWriteShape(a: Uuid, page: SyncPage, now: int, w: Write)
    requires w in MarkWrites(a, page, now)
    ensures (exists p | p in page.trashedIds :: w == UpdateEmails(ByMessage(a, p), Trash(now)))
         || (exists p | p in page.restoredIds :: w == UpdateEmails(ByMessage(a, p), Untrash))
         || (exists p | p in page.deletedIds :: w == DeleteEmails(ByMessage(a, p)))
  {
    var all := MarkWrites(a, page, now);
    var i :| 0 <= i < |all| && all[i] == w;
    var t, r := |page.trashedIds|, |page.restoredIds|;
    if i < t {
      assert page.trashedIds[i] in page.trashedIds;
    } else if i < t + r {
      assert page.restoredIds[i - t] in page.restoredIds;
    } else {
      assert page.deletedIds[i - t - r] in page.deletedIds;
    }
  }

  // ---------------------------------------------------------------- the row of one message

  /** A row without its identifier and its local timestamps. */
  datatype RowView = RowView(
    subject: Option<string>,
    sender: Option<string>,
    receivedAt: int,
    isRead: bool,
    viewed: bool,
    trashed: bool,
    snippet: Option<string>)

  function View(e: Email): RowView {
    RowView(e.subject, e.sender, e.receivedAt, e.isRead, e.viewed, e.trashed, e.snippet)
  }

  ghost function Row(db: Db, a: Uuid, p: string): Option<RowView> {
    if id :| id in db.emails && ByMessage(a, p).Hits(id, db.emails[id])
    then Some(View(db.emails[id]))
    else None
  }

  function SavedRow(o: Option<RowView>, m: Incoming): RowView {
    match o
    case None => RowView(m.subject, m.sender, m.receivedAt, m.isRead, false, false, m.snippet)
    case Some(r) => r.(
      isRead := m.isRead,
      sender := Coalesce(m.sender, r.sender),
      subject := Coalesce(m.subject, r.subject),
      snippet := Coalesce(m.snippet, r.snippet))
  }

  function Flagged(o: Option<RowView>, trashed: bool): Option<RowView> {
    if o.Some? then Some(o.value.(trashed := trashed)) else None
  }

  /** The statements that a pass (or a classification between passes) may issue for account `a`. */
  predicate IsPassWrite(w: Write, a: Uuid) {
    || (w.SaveEmail? && w.account == a)
    || (w.UpdateEmails? && w.sel.ByMessage? && w.sel.account == a && (w.change.Trash? || w.change.Untrash?))
    || (w.DeleteEmails? && w.sel.ByMessage? && w.sel.account == a)
    || (NotesAccount(w) && w.account == a)
    || w.SaveClassification?
  }

  /** Statements on the account row: the cursor, its clearing, and the last error. */
  predicate NotesAccount(w: Write) {
    w.UpdateCursor? || w.ClearCursor? || w.SetSyncError?
  }

  /** What such a statement does to the row of message `p` in account `a`. */
  function RowStep(o: Option<RowView>, w: Write, a: Uuid, p: string): Option<RowView> {
    match w
    case SaveEmail(b, m, _) => if b == a && m.messageId == p then Some(SavedRow(o, m)) else o
    case UpdateEmails(ByMessage(b, q), Trash(_)) => if b == a && q == p then Flagged(o, true) else o
    case UpdateEmails(ByMessage(b, q), Untrash) => if b == a && q == p then Flagged(o, false) else o
    case DeleteEmails(ByMessage(b, q)) => if b == a && q == p then None else o
    case _ => o
  }

  function RunRow(o: Option<RowView>, ws: seq<Write>, a: Uuid, p: string): Option<RowView>
    decreases |ws|
  {
    if ws == [] then o else RunRow(RowStep(o, ws[0], a, p), ws[1..], a, p)
  }

  lemma {:induction false} RunRowConcat(o: Option<RowView>, xs: seq<Write>, ys: seq<Write>, a: Uuid, p: string)
    ensures RunRow(o, xs + ys, a, p) == RunRow(RunRow(o, xs, a, p), ys, a, p)
    decreases |xs|
  {
    if xs == [] {
      assert xs + ys == ys;
    } else {
      assert (xs + ys)[0] == xs[0] && (xs + ys)[1..] == xs[1..] + ys;
      RunRowConcat(RowStep(o, xs[0], a, p), xs[1..], ys, a, p);
    }
  }

  lemma RowIs(db: Db, a: Uuid, p: string, id: Uuid)
    requires WF(db) && id in db.emails && db.emails[id].account == a && db.emails[id].messageId == p
    ensures Row(db, a, p) == Some(View(db.emails[id]))
  {
    assert forall j | j in db.emails && ByMessage(a, p).Hits(j, db.emails[j]) :: SameKey(db.emails[j], db.emails[id]);
  }

  lemma NoRow(db: Db, a: Uuid, p: string)
    requires ByMessage(a, p).In(db.emails) == {}
    ensures Row(db, a, p) == None
  {
    assert forall j | j in db.emails :: j !in ByMessage(a, p).In(db.emails);
  }

  /** Changing or deleting rows by identifier, seen from one message. */
  lemma RowAfterUpdate(db: Db, ids: set<Uuid>, change: Change, a: Uuid, p: string)
    requires WF(db)
    ensures var after := db.(emails := UpdateRows(db.emails, ids, change));
            && (ByMessage(a, p).In(db.emails) * ids == {} ==> Row(after, a, p) == Row(db, a, p))
            && (forall id | id in ByMessage(a, p).In(db.emails) && id in ids ::
                  Row(after, a, p) == Some(View(change.On(db.emails[id]))))
  {
    var after := db.(emails := UpdateRows(db.emails, ids, change));
    UpdateRowsOk(db, ids, change);
    forall id | id in ByMessage(a, p).In(db.emails)
      ensures Row(after, a, p) == Some(View(after.emails[id])) && Row(db, a, p) == Some(View(db.emails[id]))
    {
      assert SameIdentity(db.emails[id], after.emails[id]);
      RowIs(after, a, p, id);
      RowIs(db, a, p, id);
    }
    if ByMessage(a, p).In(db.emails) == {} {
      NoRow(db, a, p);
      forall id | id in after.emails ensures id !in ByMessage(a, p).In(after.emails) {
        assert SameIdentity(db.emails[id], after.emails[id]);
        assert id !in ByMessage(a, p).In(db.emails);
      }
      NoRow(after, a, p);
    }
  }

  lemma RowAfterDelete(db: Db, ids: set<Uuid>, a: Uuid, p: string)
    requires WF(db)
    ensures var after := DeleteRows(db, ids);
            && (ByMessage(a, p).In(db.emails) * ids == {} ==> Row(after, a, p) == Row(db, a, p))
            && (ByMessage(a, p).In(db.emails) <= ids ==> Row(after, a, p) == None)
  {
    var after := DeleteRows(db, ids);
    DeleteRowsOk(db, ids);
    if ByMessage(a, p).In(db.emails) <= ids {
      assert ByMessage(a, p).In(after.emails) == {};
      NoRow(after, a, p);
    } else if id :| id in ByMessage(a, p).In(db.emails) && id !in ids {
      RowIs(after, a, p, id);
      RowIs(db, a, p, id);
    }
    if ByMessage(a, p).In(db.emails) == {} {
      NoRow(db, a, p);
    }
  }

  lemma RowAfterSave(db: Db, b: Uuid, m: Incoming, now: int, a: Uuid, p: string)
    requires WF(db) && b in db.accounts
    ensures Row(SaveEmailRow(db, b, m, now), a, p)
         == if b == a && m.messageId == p then Some(SavedRow(Row(db, a, p), m)) else Row(db, a, p)
  {
    var ids := ByMessage(b, m.messageId).In(db.emails);
    if ids != {} {
      RowAfterUpdate(db, ids, Refresh(m), a, p);
      if b == a && m.messageId == p {
        var id :| id in ids;
        RowIs(db, a, p, id);
      }
    } else {
      var after := SaveEmailRow(db, b, m, now);
      SaveEmailOk(db, b, m, now);
      if b == a && m.messageId == p {
        NoRow(db, a, p);
        RowIs(after, a, p, db.nextId);
      } else if id :| id in ByMessage(a, p).In(db.emails) {
        RowIs(db, a, p, id);
        RowIs(after, a, p, id);
      } else {
        assert forall id | id in db.emails :: id !in ByMessage(a, p).In(db.emails);
        assert ByMessage(a, p).In(after.emails) == {};
        NoRow(db, a, p);
        NoRow(after, a, p);
      }
    }
  }

  lemma RowAfterMark(db: Db, q: string, change: Change, b: Uuid, a: Uuid, p: string)
    requires WF(db) && (change.Trash? || change.Untrash?)
    ensures Row(db.(emails := UpdateRows(db.emails, ByMessage(b, q).In(db.emails), change)), a, p)
         == if b == a && q == p then Flagged(Row(db, a, p), change.Trash?) else Row(db, a, p)
  {
    var ids := ByMessage(b, q).In(db.emails);
    RowAfterUpdate(db, ids, change, a, p);
    if b == a && q == p {
      if id :| id in ids {
        RowIs(db, a, p, id);
      } else {
        NoRow(db, a, p);
      }
    }
  }

  /** Every statement of a pass acts on each message separately. */
  lemma RowAfterWrite(db: Db, w: Write, b: Uuid, a: Uuid, p: string)
    requires WF(db) && b in db.accounts && IsPassWrite(w, b)
    ensures Row(Apply(db, w), a, p) == RowStep(Row(db, a, p), w, a, p)
  {
    if NotesAccount(w) || w.SaveClassification? {
      OtherTablesOnly(db, w);
      hide Apply;
      SameEmailsSameRow(db, Apply(db, w), a, p);
    } else {
      match w
      case SaveEmail(_, m, now) => RowAfterSave(db, b, m, now, a, p);
      case UpdateEmails(sel, change) => RowAfterMark(db, sel.messageId, change, b, a, p);
      case DeleteEmails(sel) => RowAfterDelete(db, sel.In(db.emails), a, p);
    }
  }

  lemma OtherTablesOnly(db: Db, w: Write)
    requires NotesAccount(w) || w.SaveClassification?
    ensures Apply(db, w).emails == db.emails
  {
  }

  lemma AccountsAfterWrite(db: Db, w: Write, b: Uuid)
    requires b in db.accounts && IsPassWrite(w, b)
    ensures Apply(db, w).accounts.Keys == db.accounts.Keys
    ensures !NotesAccount(w) ==> Apply(db, w).accounts == db.accounts
  {
  }

  lemma SameEmailsSameRow(db: Db, after: Db, a: Uuid, p: string)
    requires WF(db) && after.emails == db.emails
    ensures Row(after, a, p) == Row(db, a, p)
  {
    if id :| id in db.emails && ByMessage(a, p).Hits(id, db.emails[id]) {
      RowIs(db, a, p, id);
      assert forall j | j in db.emails && ByMessage(a, p).Hits(j, db.emails[j]) :: SameKey(db.emails[j], db.emails[id]);
    }
  }

  lemma {:induction false} RowAfterRun(db: Db, ws: seq<Write>, b: Uuid, a: Uuid, p: string)
    requires WF(db) && b in db.accounts
    requires forall w | w in ws :: IsPassWrite(w, b)
    ensures Row(Run(db, ws), a, p) == RunRow(Row(db, a, p), ws, a, p)
    ensures Run(db, ws).accounts.Keys == db.accounts.Keys && WF(Run(db, ws))
    ensures (forall w | w in ws :: !NotesAccount(w)) ==> Run(db, ws).accounts == db.accounts
    decreases |ws|
  {
    if ws != [] {
      RowAfterWrite(db, ws[0], b, a, p);
      AccountsAfterWrite(db, ws[0], b);
      ApplyOk(db, ws[0]);
      RowAfterRun(Apply(db, ws[0]), ws[1..], b, a, p);
    }
  }

  // ---------------------------------------------------------------- a store with a given row

  /** A store with one account and, if `o` says so, one email of it. */
  function StoreWith(a: Uuid, p: string, o: Option<RowView>): Db {
    var emails := match o
                  case None => map[]
                  case Some(r) =>
                    map[0 := Email(a, p, r.subject, r.sender, r.receivedAt, r.isRead, r.viewed, r.trashed,
                                   if r.trashed then Some(0) else None, r.snippet, 0)];
    Db(map[a := Account(Imap, "", None, None, None, 0)], map[], emails, map[], a + 1)
  }

  /** Every row is the row of some well-formed store. */
  lemma StoreWithHasRow(a: Uuid, p: string, o: Option<RowView>)
    ensures WF(StoreWith(a, p, o)) && a in StoreWith(a, p, o).accounts && Row(StoreWith(a, p, o), a, p) == o
  {
    var db := StoreWith(a, p, o);
    assert WF(db);
    if o.Some? {
      RowIs(db, a, p, 0);
    } else {
      NoRow(db, a, p);
    }
  }

  /** From every store the two lists of statements leave one message the same row. */
  ghost predicate SameInEveryStore(a: Uuid, xs: seq<Write>, ys: seq<Write>, p: string) {
    forall db | WF(db) && a in db.accounts :: Row(Run(db, xs), a, p) == Row(Run(db, ys), a, p)
  }
}
