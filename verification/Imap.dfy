/** IMAP discovery: UID windows, the cursor text and per-message answers. */
module Imap {
  import opened Prelude
  import opened Text
  import opened SyncEngine

  /** What `SELECT INBOX` and `UID SEARCH` see: the UIDVALIDITY value, if sent, and the UIDs present. */
  datatype Mailbox = Mailbox(validity: Option<nat>, uids: set<nat>)
  {
    function Validity(): nat {
      if validity.Some? then validity.value else 0
    }
  }

  // ---------------------------------------------------------------- the cursor text

  function FormatCursor(validity: nat, uid: nat): string {
    Decimal(validity) + ":" + Decimal(uid)
  }

  function OrZero(n: Option<nat>): nat {
    if n.Some? then n.value else 0
  }

  /** Anything but two parts is rejected; a part that is no 32-bit number reads as zero. */
  function ParseCursor(s: string): Option<(nat, nat)> {
    var parts := Split(s, ':');
    if |parts| != 2 then None else Some((OrZero(ParseU32(parts[0])), OrZero(ParseU32(parts[1]))))
  }

  lemma ParsedInRange(s: string)
    ensures ParseCursor(s).Some? ==> ParseCursor(s).value.0 < U32_BOUND && ParseCursor(s).value.1 < U32_BOUND
  {
  }

  /** A written cursor parses back to the same pair. */
  lemma CursorRoundTrip(validity: nat, uid: nat)
    requires validity < U32_BOUND && uid < U32_BOUND
    ensures ParseCursor(FormatCursor(validity, uid)) == Some((validity, uid))
  {
    assert Decimal(validity) + ":" + Decimal(uid) == Decimal(validity) + [':'] + Decimal(uid);
    SplitAtOne(Decimal(validity), Decimal(uid), ':');
    DecimalParses(validity);
    DecimalParses(uid);
  }

  /** A part that is no number reads as zero; one part or three expire the cursor. */
  lemma MalformedCursors(left: string, right: string)
    requires ':' !in left && ':' !in right
    ensures ParseCursor(left + ":" + right) == Some((if ParseU32(left) == None then 0 else ParseU32(left).value,
                                                     if ParseU32(right) == None then 0 else ParseU32(right).value))
    ensures ParseCursor(left) == None
  {
    SplitAtOne(left, right, ':');
    SplitWithout(left, ':');
    assert left + ":" + right == left + [':'] + right;
  }

  // ---------------------------------------------------------------- sorted windows

  predicate IsMax(s: set<nat>, m: nat) {
    m in s && forall x | x in s :: x <= m
  }

  lemma {:induction false} MaxExists(s: set<nat>)
    requires s != {}
    ensures exists m :: IsMax(s, m)
    decreases |s|
  {
    var x :| x in s;
    if s == {x} {
      assert IsMax(s, x);
    } else {
      assert s == {x} + (s - {x}) && s - {x} != {};
      MaxExists(s - {x});
      var y :| IsMax(s - {x}, y);
      assert IsMax(s, if x < y then y else x);
    }
  }

  ghost function MaxOf(s: set<nat>): (m: nat)
    requires s != {}
    ensures m in s && forall x | x in s :: x <= m
  {
    MaxExists(s);
    var m :| IsMax(s, m);
    m
  }

  /** The UIDs from the greatest to the least. */
  ghost function Descending(s: set<nat>): (q: seq<nat>)
    ensures |q| == |s|
    decreases |s|
  {
    if s == {} then [] else [MaxOf(s)] + Descending(s - {MaxOf(s)})
  }

  lemma {:induction false} DescendingElements(s: set<nat>)
    ensures forall u :: u in Descending(s) <==> u in s
    decreases |s|
  {
    if s != {} {
      DescendingElements(s - {MaxOf(s)});
    }
  }

  lemma {:induction false} DescendingOrder(s: set<nat>)
    ensures forall i, j | 0 <= i < j < |s| :: Descending(s)[i] > Descending(s)[j]
    decreases |s|
  {
    if s != {} {
      var m := MaxOf(s);
      var rest := Descending(s - {m});
      DescendingOrder(s - {m});
      forall j | 0 <= j < |rest| ensures m > rest[j] {
        DescendingElements(s - {m});
        assert rest[j] in rest;
      }
      assert Descending(s) == [m] + rest;
    }
  }

  ghost function Texts(q: seq<nat>): seq<string> {
    seq(|q|, i requires 0 <= i < |q| => Decimal(q[i]))
  }

  ghost function Highest(s: set<nat>, fallback: nat): nat {
    if s == {} then fallback else MaxOf(s)
  }

  /**
   * `UID SEARCH UID n:*` under section 6.4.8 of RFC 3501: `*` is the greatest UID present and
   * the ends of a range may come in either order, so the greatest UID always matches.
   */
  ghost function SearchFrom(uids: set<nat>, n: nat): set<nat> {
    if uids == {} then {}
    else set u | u in uids && (n <= u <= MaxOf(uids) || MaxOf(uids) <= u <= n)
  }

  /** So a range beyond every UID still answers with the greatest one. */
  lemma StarAlwaysMatches(uids: set<nat>, n: nat)
    requires uids != {}
    ensures MaxOf(uids) in SearchFrom(uids, n)
    ensures n > MaxOf(uids) ==> SearchFrom(uids, n) == {MaxOf(uids)}
  {
  }

  function Above(uids: set<nat>, last: nat): set<nat> {
    set u | u in uids && u > last
  }

  /** 32-bit addition without overflow checks. */
  function Successor(uid: nat): nat {
    (uid + 1) % U32_BOUND
  }

  /** After the filter the search returns exactly the UIDs above the last one seen, even where the bound wraps. */
  lemma FilteredSearchIsAbove(uids: set<nat>, last: nat)
    requires last < U32_BOUND && forall u | u in uids :: u < U32_BOUND
    ensures Above(SearchFrom(uids, Successor(last)), last) == Above(uids, last)
  {
  }

  /** The first `k` of the descending list are the `k` greatest: nothing left out exceeds a listed one. */
  lemma WindowIsGreatest(uids: set<nat>, k: nat, listed: nat, omitted: nat)
    requires k <= |uids|
    requires listed in Descending(uids)[..k] && omitted in uids && omitted !in Descending(uids)[..k]
    ensures omitted < listed
  {
    DescendingOrder(uids);
    DescendingElements(uids);
    var q := Descending(uids);
    var i :| 0 <= i < k && q[..k][i] == listed;
    assert q == q[..k] + q[k..];
    var j :| 0 <= j < |q| - k && q[k..][j] == omitted;
  }

  // ---------------------------------------------------------------- discovery

  ghost function InitialPage(box: Mailbox, maxResults: nat): SyncPage {
    SyncPage(
      Texts(Descending(box.uids)[..Min(|box.uids|, maxResults)]), [], [], [],
      FormatCursor(box.Validity(), Highest(box.uids, 0)))
  }

  ghost function IncrementalPage(cursor: string, box: Mailbox): Result<SyncPage, ProviderError> {
    match ParseCursor(cursor)
    case None => Err(CursorExpired)
    case Some((validity, last)) =>
      if box.Validity() != validity then Err(CursorExpired)
      else Ok(SyncPage(
        Texts(Descending(Above(box.uids, last))), [], [], [],
        FormatCursor(validity, Highest(Above(box.uids, last), last))))
  }

  /** `sort_unstable` on the UIDs of a search: ascending, the reverse of `Descending`. */
  method SortUids(s: set<nat>) returns (q: seq<nat>)
    ensures Backwards(q) == Descending(s)
  {
    q := [];
    var todo := s;
    while todo != {}
      invariant Descending(s) == Backwards(q) + Descending(todo)
      decreases |todo|
    {
      var found := PickMax(todo);
      assert [found] + Descending(todo - {found}) == Descending(todo);
      BackwardsPush(found, q);
      q, todo := [found] + q, todo - {found};
    }
  }

  ghost function Backwards(q: seq<nat>): seq<nat> {
    seq(|q|, i requires 0 <= i < |q| => q[|q| - 1 - i])
  }

  lemma BackwardsPush(x: nat, q: seq<nat>)
    ensures Backwards([x] + q) == Backwards(q) + [x]
  {
  }

  method PickMax(s: set<nat>) returns (m: nat)
    requires s != {}
    ensures m == MaxOf(s)
  {
    m :| m in s;
    var todo := s - {m};
    while todo != {}
      invariant m in s && todo <= s
      invariant forall x | x in s && x !in todo :: x <= m
      decreases |todo|
    {
      var x :| x in todo;
      m := if x > m then x else m;
      todo := todo - {x};
    }
  }

  method ReversedTexts(q: seq<nat>) returns (texts: seq<string>)
    ensures texts == Texts(Backwards(q))
  {
    texts := [];
    var i := |q|;
    while i > 0
      invariant 0 <= i <= |q| && |texts| == |q| - i
      invariant forall k | 0 <= k < |texts| :: texts[k] == Decimal(q[|q| - 1 - k])
    {
      i := i - 1;
      texts := texts + [Decimal(q[i])];
    }
  }

  /** The last element of the sorted list is the greatest UID. */
  lemma LastIsHighest(s: set<nat>, q: seq<nat>)
    requires Backwards(q) == Descending(s)
    ensures q == [] <==> s == {}
    ensures q != [] ==> q[|q| - 1] == MaxOf(s)
  {
    if q != [] {
      assert Backwards(q)[0] == q[|q| - 1];
    }
  }

  method InitialSync(box: Mailbox, found: set<nat>, maxResults: nat) returns (page: SyncPage)
    requires found == box.uids
    ensures page == InitialPage(box, maxResults)
  {
    hide Descending;
    var uids := SortUids(found);
    var highest := if uids == [] then 0 else uids[|uids| - 1];
    var start := if |uids| <= maxResults then 0 else |uids| - maxResults;
    var ids := ReversedTexts(uids[start..]);
    LastIsHighest(found, uids);
    assert |Backwards(uids)| == |found|;
    assert Backwards(uids[start..]) == Backwards(uids)[..|uids| - start];
    page := SyncPage(ids, [], [], [], FormatCursor(box.Validity(), highest));
  }

  /** With overflow checks the greatest 32-bit UID has no successor, and the task that asks for it dies. */
  const TASK_PANICKED := Other("task panicked")

  /** The window after the cursor; `found` is what the server answers to `UID n:*`. */
  method IncrementalSync(cursor: string, box: Mailbox, found: set<nat>, overflowChecks: bool)
    returns (r: Result<SyncPage, ProviderError>)
    requires forall u | u in box.uids :: u < U32_BOUND
    requires ParseCursor(cursor).Some? ==> found == SearchFrom(box.uids, Successor(ParseCursor(cursor).value.1))
    ensures r == if overflowChecks && ParseCursor(cursor) == Some((box.Validity(), 0xFFFF_FFFF)) then Err(TASK_PANICKED)
                 else IncrementalPage(cursor, box)
  {
    ParsedInRange(cursor);
    var parts := Split(cursor, ':');
    if |parts| != 2 {
      return Err(CursorExpired);
    }
    var expected, last := OrZero(ParseU32(parts[0])), OrZero(ParseU32(parts[1]));
    var current := box.Validity();
    if current != expected {
      return Err(CursorExpired);
    }
    if overflowChecks && last == U32_BOUND - 1 {
      return Err(TASK_PANICKED);
    }
    FilteredSearchIsAbove(box.uids, last);
    var newUids := SortUids(Above(found, last));
    var highest := if newUids == [] then last else newUids[|newUids| - 1];
    var ids := ReversedTexts(newUids);
    LastIsHighest(Above(box.uids, last), newUids);
    r := Ok(SyncPage(ids, [], [], [], FormatCursor(current, highest)));
  }

  /** Pages only ever list new messages: those above the cursor, or the window below the greatest UID. */
  lemma ListedUidIff(cursor: string, box: Mailbox, maxResults: nat, u: nat)
    ensures var page := InitialPage(box, maxResults);
            && page.trashedIds == page.deletedIds == page.restoredIds == []
            && |page.newIds| == Min(|box.uids|, maxResults)
            && (Decimal(u) in page.newIds ==> u in box.uids)
    ensures IncrementalPage(cursor, box).Err?
       <==> ParseCursor(cursor) == None || ParseCursor(cursor).value.0 != box.Validity()
    ensures IncrementalPage(cursor, box).Err? ==> IncrementalPage(cursor, box).error == CursorExpired
    ensures IncrementalPage(cursor, box).Ok? ==>
              var page, last := IncrementalPage(cursor, box).value, ParseCursor(cursor).value.1;
              && page.trashedIds == page.deletedIds == page.restoredIds == []
              && |page.newIds| == |set v | v in box.uids && v > last|
              && (Decimal(u) in page.newIds <==> u in box.uids && u > last)
  {
    hide ParseCursor, FormatCursor, Descending;
    TextListed(Descending(box.uids)[..Min(|box.uids|, maxResults)], u);
    DescendingElements(box.uids);
    if ParseCursor(cursor).Some? {
      var above := Above(box.uids, ParseCursor(cursor).value.1);
      TextListed(Descending(above), u);
      DescendingElements(above);
      assert above == set v | v in box.uids && v > ParseCursor(cursor).value.1;
    }
  }

  lemma TextListed(q: seq<nat>, u: nat)
    ensures Decimal(u) in Texts(q) <==> u in q
  {
    if Decimal(u) in Texts(q) {
      var i :| 0 <= i < |q| && Texts(q)[i] == Decimal(u);
      DecimalInjective(q[i], u);
    }
    if i :| 0 <= i < |q| && q[i] == u {
      assert Texts(q)[i] == Decimal(u);
    }
  }

  /** Within an epoch the UID of the cursor never decreases. */
  lemma CursorNeverGoesBack(cursor: string, box: Mailbox)
    requires IncrementalPage(cursor, box).Ok?
    requires box.Validity() < U32_BOUND && forall u | u in box.uids :: u < U32_BOUND
    ensures var before, after := ParseCursor(cursor), ParseCursor(IncrementalPage(cursor, box).value.nextCursor);
            && after.Some? && after.value.0 == before.value.0
            && after.value.1 >= before.value.1
            && (forall u | u in box.uids :: u > before.value.1 ==> after.value.1 >= u)
  {
    hide ParseCursor, FormatCursor, Descending, Texts;
    var last := ParseCursor(cursor).value.1;
    ParsedInRange(cursor);
    var above := Above(box.uids, last);
    assert forall u | u in box.uids && u > last :: u in above;
    CursorRoundTrip(box.Validity(), Highest(Above(box.uids, last), last));
  }

  /**
   * The cursor of an initial listing is accepted by the next pass over the same mailbox, also by one that sends no
   * UIDVALIDITY, which counts as zero; that pass lists exactly what has arrived above it.
   */
  lemma OwnCursorIsAccepted(box: Mailbox, later: Mailbox, maxResults: nat)
    requires box.Validity() < U32_BOUND && forall u | u in box.uids :: u < U32_BOUND
    ensures var cursor := InitialPage(box, maxResults).nextCursor;
            && (box.validity == None ==>
                  exists u :: ParseCursor(cursor) == Some((0, u)) && (forall x | x in box.uids :: x <= u))
            && (later.validity == box.validity ==> IncrementalPage(cursor, later).Ok?)
            && (later.validity == box.validity && later.uids == box.uids ==>
                  IncrementalPage(cursor, later).value.newIds == [])
  {
    var highest := Highest(box.uids, 0);
    CursorRoundTrip(box.Validity(), highest);
    hide ParseCursor, FormatCursor;
    assert Above(box.uids, highest) == {};
  }

  // ---------------------------------------------------------------- per-message answers

  /** One item of a `UID FETCH` response. */
  datatype Fetch = Fetch(
    uid: Option<nat>,
    subject: string,
    sender: string,
    receivedAt: int,
    isRead: bool,
    snippet: Option<string>)

  function ToMetadata(f: Fetch, id: string): Metadata {
    Metadata(id, f.subject, f.sender, f.receivedAt, f.isRead, f.snippet)
  }

  function MissingText(id: string): string {
    "invalid provider data: Message " + id + " not found on IMAP server (404)"
  }

  predicate Mentions(fetches: seq<Fetch>, id: string) {
    exists i | 0 <= i < |fetches| :: fetches[i].uid.Some? && Decimal(fetches[i].uid.value) == id
  }

  /** Answers in request order: the last fetched item of that UID, or "not found". */
  function AnswerFor(fetches: seq<Fetch>, id: string): Hydrated {
    if fetches == [] then Failed(MissingText(id))
    else
      var last := fetches[|fetches| - 1];
      if last.uid.Some? && Decimal(last.uid.value) == id then Ready(ToMetadata(last, id))
      else AnswerFor(fetches[..|fetches| - 1], id)
  }

  function AnswersFor(fetches: seq<Fetch>, ids: seq<string>): seq<Hydrated> {
    seq(|ids|, i requires 0 <= i < |ids| => AnswerFor(fetches, ids[i]))
  }

  method FetchMessageMetadata(ids: seq<string>, fetches: seq<Fetch>) returns (results: seq<Hydrated>)
    ensures results == AnswersFor(fetches, ids)
  {
    var fetchMap: map<string, Fetch> := map[];
    for i := 0 to |fetches|
      invariant forall id :: AnswerFor(fetches[..i], id)
                        == if id in fetchMap then Ready(ToMetadata(fetchMap[id], id)) else Failed(MissingText(id))
    {
      assert fetches[..i + 1][..i] == fetches[..i];
      if fetches[i].uid.Some? {
        fetchMap := fetchMap[Decimal(fetches[i].uid.value) := fetches[i]];
      }
    }
    assert fetches[..|fetches|] == fetches;
    results := [];
    for i := 0 to |ids|
      invariant results == AnswersFor(fetches, ids[..i])
    {
      var id := ids[i];
      results := results + [if id in fetchMap then Ready(ToMetadata(fetchMap[id], id)) else Failed(MissingText(id))];
    }
    assert ids[..|ids|] == ids;
  }

  lemma {:induction false} AnswerIsReadyIff(fetches: seq<Fetch>, id: string)
    ensures AnswerFor(fetches, id).Ready? <==> Mentions(fetches, id)
    ensures AnswerFor(fetches, id).Ready? ==> AnswerFor(fetches, id).meta.id == id
    ensures AnswerFor(fetches, id).Failed? ==> AnswerFor(fetches, id) == Failed(MissingText(id))
  {
    if fetches != [] {
      var init := fetches[..|fetches| - 1];
      AnswerIsReadyIff(init, id);
      if i :| 0 <= i < |init| && init[i].uid.Some? && Decimal(init[i].uid.value) == id {
        assert fetches[i] == init[i];
      }
      if i :| 0 <= i < |fetches| && fetches[i].uid.Some? && Decimal(fetches[i].uid.value) == id && i < |init| {
        assert init[i] == fetches[i];
      }
    }
  }

  /** The fields of an answer are those of the last fetched item of that UID. */
  lemma {:induction false} AnswerIsTheLastItem(fetches: seq<Fetch>, id: string, i: nat)
    requires i < |fetches| && fetches[i].uid.Some? && Decimal(fetches[i].uid.value) == id
    requires forall j | i < j < |fetches| :: fetches[j].uid.Some? ==> Decimal(fetches[j].uid.value) != id
    ensures AnswerFor(fetches, id)
         == var f := fetches[i]; Ready(Metadata(id, f.subject, f.sender, f.receivedAt, f.isRead, f.snippet))
  {
    if i < |fetches| - 1 {
      var n := |fetches| - 1;
      assert fetches[n].uid.Some? ==> Decimal(fetches[n].uid.value) != id;
      AnswerIsTheLastItem(fetches[..n], id, i);
    }
  }

  /** A completed batch never holds the cursor: every unanswered UID counts as missing. */
  lemma ImapAnswersNeverHoldTheCursor(fetches: seq<Fetch>, ids: seq<string>)
    ensures !AnyHolds(AnswersFor(fetches, ids))
  {
    forall i | 0 <= i < |ids| ensures !HoldsCursor(AnswersFor(fetches, ids)[i]) {
      var id := ids[i];
      AnswerIsReadyIff(fetches, id);
      var before, after := "invalid provider data: Message " + id + " not found on IMAP server (", ")";
      assert OccursAt("404", "404", 0);
      ContainsWithin(before, "404", after, "404");
      assert before + "404" + after == MissingText(id);
    }
  }
}
