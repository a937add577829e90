/** Gmail discovery: folding the pages of a history window into one page of changes. */
module GmailHistory {
  import opened Prelude
  import opened Text
  import opened SyncEngine

  datatype LabelChange = LabelChange(id: string, labels: seq<string>)

  datatype HistoryRecord = HistoryRecord(
    added: seq<string>,
    deleted: seq<string>,
    labelsAdded: seq<LabelChange>,
    labelsRemoved: seq<LabelChange>)

  datatype HistoryPage = HistoryPage(records: seq<HistoryRecord>, historyId: string, nextToken: Option<string>)

  /** The server's answer to one history request. */
  datatype Reply = Page(page: HistoryPage) | ExpiredHistory | Failure(error: ProviderError)

  const CONNECTION_LOST := Other("connection lost")

  // ---------------------------------------------------------------- what a window says

  predicate TrashOrSpam(c: LabelChange) {
    "TRASH" in c.labels || "SPAM" in c.labels
  }

  function TrashOrSpamIds(cs: seq<LabelChange>): seq<string> {
    if cs == [] then []
    else
      var last := cs[|cs| - 1];
      TrashOrSpamIds(cs[..|cs| - 1]) + if TrashOrSpam(last) then [last.id] else []
  }

  /** The four lists a run over the records builds. */
  datatype Changes = Changes(added: seq<string>, deleted: seq<string>, trashed: seq<string>, restored: seq<string>)

  function Gather(rs: seq<HistoryRecord>): Changes {
    if rs == [] then Changes([], [], [], [])
    else
      var c, r := Gather(rs[..|rs| - 1]), rs[|rs| - 1];
      Changes(
        c.added + r.added,
        c.deleted + r.deleted,
        c.trashed + TrashOrSpamIds(r.labelsAdded),
        c.restored + TrashOrSpamIds(r.labelsRemoved))
  }

  function AllRecords(pages: seq<HistoryPage>): seq<HistoryRecord> {
    if pages == [] then [] else AllRecords(pages[..|pages| - 1]) + pages[|pages| - 1].records
  }

  /** The last non-empty history identifier, or the old cursor. */
  function LastHistoryId(cursor: string, pages: seq<HistoryPage>): string {
    if pages == [] then cursor
    else if pages[|pages| - 1].historyId != "" then pages[|pages| - 1].historyId
    else LastHistoryId(cursor, pages[..|pages| - 1])
  }

  predicate HasNext(p: HistoryPage) {
    p.nextToken.Some? && p.nextToken.value != ""
  }

  /** The pages a walk reads before it meets one without a continuation token, or its error. */
  function Walk(replies: seq<Reply>): Result<seq<HistoryPage>, ProviderError> {
    if replies == [] then Err(CONNECTION_LOST)
    else match replies[0]
         case ExpiredHistory => Err(CursorExpired)
         case Failure(e) => Err(e)
         case Page(p) =>
           if !HasNext(p) then Ok([p])
           else match Walk(replies[1..])
                case Err(e) => Err(e)
                case Ok(rest) => Ok([p] + rest)
  }

  /** `page` is what a window with these changes must be reported as. */
  ghost predicate Reports(page: SyncPage, c: Changes, next: string) {
    && Ascending(page.newIds) && (forall p :: p in page.newIds <==> p in c.added && p !in c.deleted)
    && Ascending(page.trashedIds) && (forall p :: p in page.trashedIds <==> p in c.trashed)
    && Ascending(page.restoredIds) && (forall p :: p in page.restoredIds <==> p in c.restored)
    && NoDuplicates(page.deletedIds) && (forall p :: p in page.deletedIds <==> p in c.deleted)
    && page.nextCursor == next
  }

  ghost predicate NoDuplicates(q: seq<string>) {
    forall i, j | 0 <= i < j < |q| :: q[i] != q[j]
  }

  function Without(q: seq<string>, gone: set<string>): (r: seq<string>)
    ensures forall p :: p in r <==> p in q && p !in gone
    ensures Ascending(q) ==> Ascending(r)
  {
    if q == [] then []
    else
      var rest := Without(q[1..], gone);
      assert forall p :: p in q <==> p == q[0] || p in q[1..];
      assert forall i | 0 <= i < |rest| :: rest[i] in rest;
      if q[0] in gone then rest else [q[0]] + rest
  }

  // ---------------------------------------------------------------- the loops

  method CollectLabelled(cs: seq<LabelChange>, sofar: seq<string>) returns (out: seq<string>)
    ensures out == sofar + TrashOrSpamIds(cs)
  {
    out := sofar;
    for i := 0 to |cs|
      invariant out == sofar + TrashOrSpamIds(cs[..i])
    {
      assert cs[..i + 1][..i] == cs[..i];
      if TrashOrSpam(cs[i]) {
        out := out + [cs[i].id];
      }
    }
    assert cs[..|cs|] == cs;
  }

  method DrainSet(s: set<string>) returns (q: seq<string>)
    ensures NoDuplicates(q) && forall p :: p in q <==> p in s
  {
    q := [];
    var todo := s;
    while todo != {}
      invariant NoDuplicates(q) && todo <= s
      invariant forall p :: p in q <==> p in s && p !in todo
      decreases |todo|
    {
      var p :| p in todo;
      q, todo := q + [p], todo - {p};
    }
  }

  /** Runs over the records of one page, extending the lists built so far. */
  method FoldRecords(rs: seq<HistoryRecord>, ghost before: seq<HistoryRecord>,
                     newIds: seq<string>, deletedIds: set<string>, trashedIds: seq<string>, restoredIds: seq<string>)
    returns (newIds': seq<string>, deletedIds': set<string>, trashedIds': seq<string>, restoredIds': seq<string>)
    requires Matches(Gather(before), newIds, deletedIds, trashedIds, restoredIds)
    ensures Matches(Gather(before + rs), newIds', deletedIds', trashedIds', restoredIds')
  {
    hide Gather;
    newIds', deletedIds', trashedIds', restoredIds' := newIds, deletedIds, trashedIds, restoredIds;
    assert before + rs[..0] == before;
    for k := 0 to |rs|
      invariant Matches(Gather(before + rs[..k]), newIds', deletedIds', trashedIds', restoredIds')
    {
      var rec := rs[k];
      assert before + rs[..k + 1] == before + rs[..k] + [rec];
      GatherLast(before + rs[..k], rec);
      newIds' := newIds' + rec.added;
      deletedIds' := deletedIds' + set p | p in rec.deleted;
      trashedIds' := CollectLabelled(rec.labelsAdded, trashedIds');
      restoredIds' := CollectLabelled(rec.labelsRemoved, restoredIds');
    }
    assert rs[..|rs|] == rs;
  }

  lemma GatherLast(rs: seq<HistoryRecord>, r: HistoryRecord)
    ensures var c, after := Gather(rs), Gather(rs + [r]);
            && after.added == c.added + r.added
            && after.trashed == c.trashed + TrashOrSpamIds(r.labelsAdded)
            && after.restored == c.restored + TrashOrSpamIds(r.labelsRemoved)
            && (set p | p in after.deleted) == (set p | p in c.deleted) + (set p | p in r.deleted)
  {
    assert (rs + [r])[..|rs|] == rs;
  }

  ghost predicate Matches(c: Changes, newIds: seq<string>, deletedIds: set<string>,
                          trashedIds: seq<string>, restoredIds: seq<string>)
  {
    && c.added == newIds && c.trashed == trashedIds && c.restored == restoredIds
    && deletedIds == set p | p in c.deleted
  }

  /** What is still to be read, once the pages `read` have been. */
  ghost predicate Reads(replies: seq<Reply>, read: seq<HistoryPage>, rest: Result<seq<HistoryPage>, ProviderError>) {
    match rest
    case Err(e) => Walk(replies) == Err(e)
    case Ok(pages) => Walk(replies) == Ok(read + pages)
  }

  /** The first error of the walk, or the page that all its records call for. */
  ghost predicate Answers(cursor: string, replies: seq<Reply>, r: Result<SyncPage, ProviderError>) {
    match Walk(replies)
    case Err(e) => r == Err(e)
    case Ok(pages) => r.Ok? && Reports(r.value, Gather(AllRecords(pages)), LastHistoryId(cursor, pages))
  }

  /** `incremental_sync`: exactly the page that the records of all pages read call for. */
  method IncrementalSync(cursor: string, replies: seq<Reply>) returns (r: Result<SyncPage, ProviderError>)
    ensures Answers(cursor, replies, r)
  {
    var finalHistoryId := cursor;
    var newIds, trashedIds, restoredIds := [], [], [];
    var deletedIds: set<string> := {};
    ghost var read: seq<HistoryPage> := [];
    var i := 0;
    assert replies[0..] == replies;
    assert Walk(replies).Ok? ==> read + Walk(replies).value == Walk(replies).value;
    while true
      invariant 0 <= i <= |replies|
      invariant Reads(replies, read, Walk(replies[i..]))
      invariant Matches(Gather(AllRecords(read)), newIds, deletedIds, trashedIds, restoredIds)
      invariant finalHistoryId == LastHistoryId(cursor, read)
      decreases |replies| - i
    {
      if i == |replies| {
        return Err(CONNECTION_LOST);
      }
      WalkStep(replies, i, read);
      match replies[i]
      case ExpiredHistory => return Err(CursorExpired);
      case Failure(e) => return Err(e);
      case Page(page) =>
        if page.historyId != "" {
          finalHistoryId := page.historyId;
        }
        newIds, deletedIds, trashedIds, restoredIds :=
          FoldRecords(page.records, AllRecords(read), newIds, deletedIds, trashedIds, restoredIds);
        ReadOneMore(cursor, read, page);
        read := read + [page];
        i := i + 1;
        if !HasNext(page) {
          break;
        }
    }
    var deleted := DrainSet(deletedIds);
    r := Ok(SyncPage(
      Without(SortDedup(newIds), deletedIds),
      SortDedup(trashedIds),
      deleted,
      SortDedup(restoredIds),
      finalHistoryId));
  }

  lemma ReadOneMore(cursor: string, read: seq<HistoryPage>, page: HistoryPage)
    ensures AllRecords(read + [page]) == AllRecords(read) + page.records
    ensures LastHistoryId(cursor, read + [page])
         == if page.historyId != "" then page.historyId else LastHistoryId(cursor, read)
  {
    assert (read + [page])[..|read|] == read;
  }

  lemma WalkStep(replies: seq<Reply>, i: nat, read: seq<HistoryPage>)
    requires i < |replies| && Reads(replies, read, Walk(replies[i..]))
    ensures match replies[i]
            case ExpiredHistory => Walk(replies) == Err(CursorExpired)
            case Failure(e) => Walk(replies) == Err(e)
            case Page(p) =>
              if HasNext(p) then Reads(replies, read + [p], Walk(replies[i + 1..])) else Walk(replies) == Ok(read + [p])
  {
    assert replies[i..][1..] == replies[i + 1..];
    if replies[i].Page? && HasNext(replies[i].page) && Walk(replies[i + 1..]).Ok? {
      var p, rest := replies[i].page, Walk(replies[i + 1..]).value;
      assert read + ([p] + rest) == read + [p] + rest;
    }
  }

  // ---------------------------------------------------------------- in terms of the replies

  /** The first `n` replies are pages that name a next one. */
  predicate ReadsOn(replies: seq<Reply>, n: nat) {
    n <= |replies| && forall i | 0 <= i < n :: replies[i].Page? && replies[i].page.nextToken !in {None, Some("")}
  }

  /** A walk reads page after page up to the first without a continuation token, or reports what stopped it. */
  lemma {:induction false} WalkReadsReplies(replies: seq<Reply>) returns (n: nat)
    ensures ReadsOn(replies, n)
    ensures Walk(replies).Ok? ==>
              && n < |replies| && replies[n].Page? && replies[n].page.nextToken in {None, Some("")}
              && |Walk(replies).value| == n + 1
              && forall i | 0 <= i <= n :: replies[i] == Page(Walk(replies).value[i])
    ensures Walk(replies).Err? ==>
              if n == |replies| then Walk(replies).error == CONNECTION_LOST && Walk(replies).error.Other?
              else if replies[n].ExpiredHistory? then Walk(replies).error == CursorExpired
              else replies[n] == Failure(Walk(replies).error)
  {
    n := 0;
    if replies != [] && replies[0].Page? && HasNext(replies[0].page) {
      var k := WalkReadsReplies(replies[1..]);
      n := k + 1;
      assert forall i | 1 <= i < |replies| :: replies[i] == replies[1..][i - 1];
    }
  }

  /** What the records of some pages say about a message. */
  predicate AddedIn(pages: seq<HistoryPage>, p: string) {
    exists i, j | 0 <= i < |pages| && 0 <= j < |pages[i].records| :: p in pages[i].records[j].added
  }

  predicate DeletedIn(pages: seq<HistoryPage>, p: string) {
    exists i, j | 0 <= i < |pages| && 0 <= j < |pages[i].records| :: p in pages[i].records[j].deleted
  }

  predicate TrashedIn(pages: seq<HistoryPage>, p: string) {
    exists i, j | 0 <= i < |pages| && 0 <= j < |pages[i].records| :: Labelled(pages[i].records[j].labelsAdded, p)
  }

  predicate RestoredIn(pages: seq<HistoryPage>, p: string) {
    exists i, j | 0 <= i < |pages| && 0 <= j < |pages[i].records| :: Labelled(pages[i].records[j].labelsRemoved, p)
  }

  /** Some change of the labels of `p` names the trash or the spam folder. */
  predicate Labelled(cs: seq<LabelChange>, p: string) {
    exists i | 0 <= i < |cs| :: cs[i].id == p && ("TRASH" in cs[i].labels || "SPAM" in cs[i].labels)
  }

  lemma {:induction false} LabelledIff(cs: seq<LabelChange>, p: string)
    ensures p in TrashOrSpamIds(cs) <==> Labelled(cs, p)
  {
    if cs != [] {
      LabelledIff(cs[..|cs| - 1], p);
      var n := |cs| - 1;
      assert cs == cs[..n] + [cs[n]];
      if i :| 0 <= i < |cs| && cs[i].id == p && ("TRASH" in cs[i].labels || "SPAM" in cs[i].labels) && i < n {
        assert cs[..n][i] == cs[i];
      }
      if Labelled(cs[..n], p) {
        var i :| 0 <= i < n && cs[..n][i].id == p && ("TRASH" in cs[..n][i].labels || "SPAM" in cs[..n][i].labels);
        assert cs[i] == cs[..n][i];
      }
    }
  }

  // The lists of some records, record by record.

  lemma {:induction false} GatherAdded(rs: seq<HistoryRecord>, p: string)
    ensures p in Gather(rs).added <==> exists j | 0 <= j < |rs| :: p in rs[j].added
  {
    if rs != [] {
      var n := |rs| - 1;
      GatherAdded(rs[..n], p);
      GatherStep(rs, p);
      hide Gather, Labelled, TrashOrSpamIds;
      assert forall j | 0 <= j < n :: rs[..n][j] == rs[j];
    }
  }

  lemma {:induction false} GatherDeleted(rs: seq<HistoryRecord>, p: string)
    ensures p in Gather(rs).deleted <==> exists j | 0 <= j < |rs| :: p in rs[j].deleted
  {
    if rs != [] {
      var n := |rs| - 1;
      GatherDeleted(rs[..n], p);
      GatherStep(rs, p);
      hide Gather, Labelled, TrashOrSpamIds;
      assert forall j | 0 <= j < n :: rs[..n][j] == rs[j];
    }
  }

  lemma {:induction false} GatherTrashed(rs: seq<HistoryRecord>, p: string)
    ensures p in Gather(rs).trashed <==> exists j | 0 <= j < |rs| :: Labelled(rs[j].labelsAdded, p)
  {
    if rs != [] {
      var n := |rs| - 1;
      GatherTrashed(rs[..n], p);
      GatherStep(rs, p);
      LabelledIff(rs[n].labelsAdded, p);
      hide Gather, Labelled, TrashOrSpamIds;
      assert forall j | 0 <= j < n :: rs[..n][j] == rs[j];
    }
  }

  lemma {:induction false} GatherRestored(rs: seq<HistoryRecord>, p: string)
    ensures p in Gather(rs).restored <==> exists j | 0 <= j < |rs| :: Labelled(rs[j].labelsRemoved, p)
  {
    if rs != [] {
      var n := |rs| - 1;
      GatherRestored(rs[..n], p);
      GatherStep(rs, p);
      LabelledIff(rs[n].labelsRemoved, p);
      hide Gather, Labelled, TrashOrSpamIds;
      assert forall j | 0 <= j < n :: rs[..n][j] == rs[j];
    }
  }

  lemma GatherStep(rs: seq<HistoryRecord>, p: string)
    requires rs != []
    ensures var c, r, all := Gather(rs[..|rs| - 1]), rs[|rs| - 1], Gather(rs);
            && (p in all.added <==> p in c.added || p in r.added)
            && (p in all.deleted <==> p in c.deleted || p in r.deleted)
            && (p in all.trashed <==> p in c.trashed || p in TrashOrSpamIds(r.labelsAdded))
            && (p in all.restored <==> p in c.restored || p in TrashOrSpamIds(r.labelsRemoved))
  {
    hide TrashOrSpamIds;
  }

  /** Some record of the pages satisfies `f`, seen from the list of all records. */
  lemma {:induction false} RecordOfPages(pages: seq<HistoryPage>, f: HistoryRecord -> bool)
    ensures (exists k | 0 <= k < |AllRecords(pages)| :: f(AllRecords(pages)[k]))
       <==> (exists i, j | 0 <= i < |pages| && 0 <= j < |pages[i].records| :: f(pages[i].records[j]))
  {
    if pages != [] {
      var n := |pages| - 1;
      RecordOfPages(pages[..n], f);
      var init, last, all := AllRecords(pages[..n]), pages[n].records, AllRecords(pages);
      assert all == init + last;
      if k :| 0 <= k < |all| && f(all[k]) {
        if k < |init| {
          assert f(init[k]);
          var i, j :| 0 <= i < n && 0 <= j < |pages[..n][i].records| && f(pages[..n][i].records[j]);
          assert f(pages[i].records[j]);
        } else {
          assert f(pages[n].records[k - |init|]);
        }
      }
      if i, j :| 0 <= i < |pages| && 0 <= j < |pages[i].records| && f(pages[i].records[j]) {
        if i < n {
          assert f(pages[..n][i].records[j]);
          var k :| 0 <= k < |init| && f(init[k]);
          assert f(all[k]);
        } else {
          assert f(all[|init| + j]);
        }
      }
    }
  }

  /**
   * The lists of a reported page, in terms of the pages that were read: new is what was added and not deleted,
   * trashed what got a trash or spam label, restored what lost one.
   */
  lemma ReportedIff(page: SyncPage, pages: seq<HistoryPage>, next: string, p: string)
    requires Reports(page, Gather(AllRecords(pages)), next)
    ensures p in page.newIds <==> AddedIn(pages, p) && !DeletedIn(pages, p)
    ensures p in page.deletedIds <==> DeletedIn(pages, p)
    ensures p in page.trashedIds <==> TrashedIn(pages, p)
    ensures p in page.restoredIds <==> RestoredIn(pages, p)
  {
    GatherAdded(AllRecords(pages), p);
    GatherDeleted(AllRecords(pages), p);
    GatherTrashed(AllRecords(pages), p);
    GatherRestored(AllRecords(pages), p);
    RecordOfPages(pages, (r: HistoryRecord) => p in r.added);
    RecordOfPages(pages, (r: HistoryRecord) => p in r.deleted);
    RecordOfPages(pages, (r: HistoryRecord) => Labelled(r.labelsAdded, p));
    RecordOfPages(pages, (r: HistoryRecord) => Labelled(r.labelsRemoved, p));
    hide Gather, AllRecords, Labelled;
  }

  // ---------------------------------------------------------------- paging does not matter

  /** `id` is the last non-empty history identifier of the pages, or the old cursor when there is none. */
  ghost predicate IsLastId(cursor: string, pages: seq<HistoryPage>, id: string) {
    || (id == cursor && forall i | 0 <= i < |pages| :: pages[i].historyId == "")
    || (id != "" && exists i | 0 <= i < |pages| :: LastNamedAt(pages, i, id))
  }

  predicate LastNamedAt(pages: seq<HistoryPage>, i: nat, id: string)
    requires i < |pages|
  {
    pages[i].historyId == id && forall j | i < j < |pages| :: pages[j].historyId == ""
  }

  lemma {:induction false} LastIdIsLast(cursor: string, pages: seq<HistoryPage>)
    ensures IsLastId(cursor, pages, LastHistoryId(cursor, pages))
  {
    if pages != [] {
      var init, n := pages[..|pages| - 1], |pages| - 1;
      if pages[n].historyId != "" {
        assert LastNamedAt(pages, n, pages[n].historyId);
      } else {
        var id := LastHistoryId(cursor, init);
        LastIdIsLast(cursor, init);
        if i :| 0 <= i < |init| && id != "" && LastNamedAt(init, i, id) {
          assert LastNamedAt(pages, i, id);
        }
      }
    }
  }

  /**
   * However a history is cut into pages, two walks that read the same records report the same page:
   * the same strictly sorted new, trashed and restored lists and the same deleted set. Each cursor is
   * the last non-empty history identifier of its own walk.
   */
  lemma PagingDoesNotMatter(cursor: string, replies: seq<Reply>, others: seq<Reply>,
                            x: Result<SyncPage, ProviderError>, y: Result<SyncPage, ProviderError>)
    requires Answers(cursor, replies, x) && Answers(cursor, others, y)
    requires Walk(replies).Ok? && Walk(others).Ok?
    requires AllRecords(Walk(replies).value) == AllRecords(Walk(others).value)
    ensures x.Ok? && y.Ok?
    ensures x.value.newIds == y.value.newIds && x.value.trashedIds == y.value.trashedIds
    ensures x.value.restoredIds == y.value.restoredIds
    ensures (set p | p in x.value.deletedIds) == (set p | p in y.value.deletedIds)
    ensures |x.value.deletedIds| == |y.value.deletedIds|
    ensures IsLastId(cursor, Walk(replies).value, x.value.nextCursor)
    ensures IsLastId(cursor, Walk(others).value, y.value.nextCursor)
  {
    AscendingUnique(x.value.newIds, y.value.newIds);
    AscendingUnique(x.value.trashedIds, y.value.trashedIds);
    AscendingUnique(x.value.restoredIds, y.value.restoredIds);
    SameSizeAsSet(x.value.deletedIds);
    SameSizeAsSet(y.value.deletedIds);
    LastIdIsLast(cursor, Walk(replies).value);
    LastIdIsLast(cursor, Walk(others).value);
  }

  lemma {:induction false} SameSizeAsSet(q: seq<string>)
    requires NoDuplicates(q)
    ensures |set p | p in q| == |q|
  {
    if q != [] {
      var init, last := q[..|q| - 1], q[|q| - 1];
      SameSizeAsSet(init);
      assert (set p | p in q) == (set p | p in init) + {last};
    }
  }
}
