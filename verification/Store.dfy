/**
 * The relational store as a value: four tables, and the meaning of every statement that
 * changes them. Statements that SQLite rejects (unique or foreign-key violations) leave the
 * tables as they are.
 */
module Store {
  import opened Prelude
  import opened TopK

  /** UUIDv7 values are allocated in ascending order and never reused. */
  type Uuid = nat

  datatype Provider = Gmail | Outlook | Imap

  datatype Account = Account(
    provider: Provider,
    address: string,
    cursor: Option<string>,
    lastSyncedAt: Option<int>,
    lastError: Option<string>,
    createdAt: int)
  {
    function Synced(cursor: string, now: int): Account {
      this.(cursor := Some(cursor), lastSyncedAt := Some(now), lastError := None)
    }
  }

  datatype Criterion = Criterion(name: string, description: string, isActive: bool, createdAt: int)

  datatype Email = Email(
    account: Uuid,
    messageId: string,
    subject: Option<string>,
    sender: Option<string>,
    receivedAt: int,
    isRead: bool,
    viewed: bool,
    trashed: bool,
    trashedAt: Option<int>,
    snippet: Option<string>,
    createdAt: int)

  datatype Classification = Classification(email: Uuid, criterion: Uuid, confidence: Option<real>, createdAt: int)

  datatype Db = Db(
    accounts: map<Uuid, Account>,
    criteria: map<Uuid, Criterion>,
    emails: map<Uuid, Email>,
    classifications: map<Uuid, Classification>,
    nextId: Uuid)

  /** The column values `save_email` binds. */
  datatype Incoming = Incoming(
    messageId: string,
    subject: Option<string>,
    sender: Option<string>,
    receivedAt: int,
    isRead: bool,
    snippet: Option<string>)
  {
    function NewRow(account: Uuid, now: int): Email {
      Email(account, messageId, subject, sender, receivedAt, isRead, false, false, None, snippet, now)
    }
  }

  // ---------------------------------------------------------------- WHERE and SET clauses

  /** The `WHERE` clauses of the statements over emails. */
  datatype Selector =
    | ById(id: Uuid)
    | ByMessage(account: Uuid, messageId: string)
    | Active(owner: Option<Uuid>)
    | ExpiredTrash(cutoff: int)
  {
    predicate Hits(id: Uuid, e: Email) {
      match this
      case ById(wanted) => id == wanted
      case ByMessage(a, p) => e.account == a && e.messageId == p
      case Active(a) => !e.trashed && (a.None? || e.account == a.value)
      case ExpiredTrash(t) => e.trashed && (e.trashedAt.None? || e.trashedAt.value <= t)
    }

    function In(emails: map<Uuid, Email>): set<Uuid> {
      set id | id in emails && Hits(id, emails[id])
    }
  }

  /** The `SET` clauses of the statements over emails. */
  datatype Change =
    | Refresh(incoming: Incoming)
    | Trash(now: int)
    | Untrash
    | SetRead(isRead: bool)
    | SetViewed
    | ReadAndViewed
  {
    function On(e: Email): Email {
      match this
      case Refresh(m) => e.(
        isRead := m.isRead,
        sender := Coalesce(m.sender, e.sender),
        subject := Coalesce(m.subject, e.subject),
        snippet := Coalesce(m.snippet, e.snippet))
      case Trash(now) => e.(trashed := true, trashedAt := Some(now))
      case Untrash => e.(trashed := false, trashedAt := None)
      case SetRead(b) => e.(isRead := b)
      case SetViewed => e.(viewed := true)
      case ReadAndViewed => e.(isRead := true, viewed := true)
    }
  }

  function UpdateRows(emails: map<Uuid, Email>, ids: set<Uuid>, change: Change): map<Uuid, Email> {
    map id | id in emails :: if id in ids then change.On(emails[id]) else emails[id]
  }

  // ---------------------------------------------------------------- cascading deletes

  function WithoutEmails(rows: map<Uuid, Classification>, ids: set<Uuid>): map<Uuid, Classification> {
    map c | c in rows && rows[c].email !in ids :: rows[c]
  }

  function WithoutCriteria(rows: map<Uuid, Classification>, ids: set<Uuid>): map<Uuid, Classification> {
    map c | c in rows && rows[c].criterion !in ids :: rows[c]
  }

  function EmailsOf(emails: map<Uuid, Email>, accounts: set<Uuid>): set<Uuid> {
    set id | id in emails && emails[id].account in accounts
  }

  function DeleteRows(db: Db, ids: set<Uuid>): Db {
    db.(emails := db.emails - ids, classifications := WithoutEmails(db.classifications, ids))
  }

  function DeleteAccounts(db: Db, ids: set<Uuid>): Db {
    DeleteRows(db, EmailsOf(db.emails, ids)).(accounts := db.accounts - ids)
  }

  function DeleteCriteria(db: Db, ids: set<Uuid>): Db {
    db.(criteria := db.criteria - ids, classifications := WithoutCriteria(db.classifications, ids))
  }

  // ---------------------------------------------------------------- capacity purge

  /** `id IN (SELECT email_id FROM classifications)`. */
  predicate IsFinding(db: Db, id: Uuid) {
    exists c | c in db.classifications :: db.classifications[c].email == id
  }

  predicate ActiveIn(db: Db, account: Uuid, id: Uuid) {
    id in db.emails && db.emails[id].account == account && !db.emails[id].trashed
  }

  function InboxIds(db: Db, account: Uuid): set<Uuid> {
    set id | id in db.emails && ActiveIn(db, account, id) && !IsFinding(db, id)
  }

  function FindingIds(db: Db, account: Uuid): set<Uuid> {
    set id | id in db.emails && ActiveIn(db, account, id) && IsFinding(db, id)
  }

  /** The rows of `emails JOIN classifications`: one for every classification of an active email. */
  function JoinedIds(db: Db, account: Uuid): set<Uuid> {
    set c | c in db.classifications && ActiveIn(db, account, db.classifications[c].email)
  }

  function InboxItem(db: Db, id: Uuid): Item
    requires id in db.emails
  {
    Item(db.emails[id].receivedAt, id)
  }

  function JoinedItem(db: Db, c: Uuid): Item
    requires c in db.classifications && db.classifications[c].email in db.emails
  {
    Item(db.emails[db.classifications[c].email].receivedAt, c)
  }

  function InboxItems(db: Db, account: Uuid): set<Item> {
    set id | id in InboxIds(db, account) :: InboxItem(db, id)
  }

  function JoinedItems(db: Db, account: Uuid): set<Item> {
    set c | c in JoinedIds(db, account) :: JoinedItem(db, c)
  }

  /** Some joined row of email `id` is among the first `k`. */
  predicate KeptFinding(db: Db, account: Uuid, k: int, id: Uuid) {
    exists c | c in JoinedIds(db, account) ::
      db.classifications[c].email == id && JoinedItem(db, c) in Top(JoinedItems(db, account), k)
  }

  function InboxOverflow(db: Db, account: Uuid, k: int): set<Uuid> {
    set id | id in InboxIds(db, account) && InboxItem(db, id) !in Top(InboxItems(db, account), k)
  }

  function FindingsOverflow(db: Db, account: Uuid, k: int): set<Uuid> {
    set id | id in FindingIds(db, account) && !KeptFinding(db, account, k, id)
  }

  function PurgeInbox(db: Db, account: Uuid, k: int): Db {
    DeleteRows(db, InboxOverflow(db, account, k))
  }

  function PurgeFindings(db: Db, account: Uuid, k: int): Db {
    DeleteRows(db, FindingsOverflow(db, account, k))
  }

  // ---------------------------------------------------------------- statements

  /** Every statement (or transaction) that changes the tables. */
  datatype Write =
    | InsertAccount(provider: Provider, address: string, now: int)
    | DeleteAccount(account: Uuid)
    | WipeTables
    | SetSyncError(account: Uuid, text: string)
    | UpdateCursor(account: Uuid, cursor: string, now: int)
    | ClearCursor(account: Uuid)
    | InsertCriterion(name: string, description: string, now: int)
    | DeleteCriterion(criterion: Uuid)
    | SetCriterionActive(criterion: Uuid, isActive: bool)
    | SaveEmail(account: Uuid, incoming: Incoming, now: int)
    | UpdateEmails(sel: Selector, change: Change)
    | DeleteEmails(sel: Selector)
    | TrimInbox(account: Uuid, maxInbox: int)
    | TrimFindings(account: Uuid, maxFindings: int)
    | SaveClassification(email: Uuid, criterion: Uuid, confidence: Option<real>, now: int)
    | DeleteClassifications(ofAccount: Option<Uuid>, ofEmail: Option<Uuid>, ofCriterion: Option<Uuid>)

  predicate AddressTaken(db: Db, address: string) {
    exists a | a in db.accounts :: db.accounts[a].address == address
  }

  function MatchesOf(rows: map<Uuid, Classification>, email: Uuid, criterion: Uuid): set<Uuid> {
    set c | c in rows && rows[c].email == email && rows[c].criterion == criterion
  }

  function ClearedRows(db: Db, a: Option<Uuid>, e: Option<Uuid>, k: Option<Uuid>): set<Uuid> {
    set c | c in db.classifications
      && (a.None? || BelongsTo(db, a.value, db.classifications[c].email))
      && (e.None? || db.classifications[c].email == e.value)
      && (k.None? || db.classifications[c].criterion == k.value)
  }

  predicate BelongsTo(db: Db, account: Uuid, id: Uuid) {
    id in db.emails && db.emails[id].account == account
  }

  function SaveEmailRow(db: Db, account: Uuid, m: Incoming, now: int): Db {
    var ids := ByMessage(account, m.messageId).In(db.emails);
    if ids != {} then db.(emails := UpdateRows(db.emails, ids, Refresh(m)))
    else if account !in db.accounts then db
    else db.(emails := db.emails[db.nextId := m.NewRow(account, now)], nextId := db.nextId + 1)
  }

  function Rescored(rows: map<Uuid, Classification>, ids: set<Uuid>, confidence: Option<real>)
    : map<Uuid, Classification>
  {
    map c | c in rows :: if c in ids then rows[c].(confidence := confidence) else rows[c]
  }

  function SaveMatch(db: Db, email: Uuid, criterion: Uuid, confidence: Option<real>, now: int): Db {
    var ids := MatchesOf(db.classifications, email, criterion);
    if ids != {} then db.(classifications := Rescored(db.classifications, ids, confidence))
    else if email !in db.emails || criterion !in db.criteria then db
    else
      db.(classifications := db.classifications[db.nextId := Classification(email, criterion, confidence, now)],
          nextId := db.nextId + 1)
  }

  function Apply(db: Db, w: Write): Db {
    match w
    case InsertAccount(p, address, now) =>
      if AddressTaken(db, address) then db
      else
        var row := Account(p, address, None, None, None, now);
        db.(accounts := db.accounts[db.nextId := row], nextId := db.nextId + 1)
    case DeleteAccount(a) => DeleteAccounts(db, {a})
    case WipeTables => DeleteCriteria(DeleteAccounts(db, db.accounts.Keys), db.criteria.Keys)
    case SetSyncError(a, text) =>
      if a in db.accounts then db.(accounts := db.accounts[a := db.accounts[a].(lastError := Some(text))]) else db
    case UpdateCursor(a, cursor, now) =>
      if a in db.accounts
      then db.(accounts := db.accounts[a := db.accounts[a].Synced(cursor, now)])
      else db
    case ClearCursor(a) =>
      if a in db.accounts then db.(accounts := db.accounts[a := db.accounts[a].(cursor := None)]) else db
    case InsertCriterion(name, description, now) =>
      db.(criteria := db.criteria[db.nextId := Criterion(name, description, true, now)], nextId := db.nextId + 1)
    case DeleteCriterion(k) => DeleteCriteria(db, {k})
    case SetCriterionActive(k, on) =>
      if k in db.criteria then db.(criteria := db.criteria[k := db.criteria[k].(isActive := on)]) else db
    case SaveEmail(a, m, now) => SaveEmailRow(db, a, m, now)
    case UpdateEmails(sel, change) => db.(emails := UpdateRows(db.emails, sel.In(db.emails), change))
    case DeleteEmails(sel) => DeleteRows(db, sel.In(db.emails))
    case TrimInbox(a, maxInbox) => PurgeInbox(db, a, maxInbox)
    case TrimFindings(a, maxFindings) => PurgeFindings(db, a, maxFindings)
    case SaveClassification(e, k, confidence, now) => SaveMatch(db, e, k, confidence, now)
    case DeleteClassifications(a, e, k) =>
      db.(classifications := db.classifications - ClearedRows(db, a, e, k))
  }

  function Run(db: Db, ws: seq<Write>): Db
    decreases |ws|
  {
    if ws == [] then db else Run(Apply(db, ws[0]), ws[1..])
  }

  lemma {:induction false} RunConcat(db: Db, xs: seq<Write>, ys: seq<Write>)
    ensures Run(db, xs + ys) == Run(Run(db, xs), ys)
    decreases |xs|
  {
    if xs == [] {
      assert xs + ys == ys;
    } else {
      assert (xs + ys)[0] == xs[0] && (xs + ys)[1..] == xs[1..] + ys;
      RunConcat(Apply(db, xs[0]), xs[1..], ys);
    }
  }

  // ---------------------------------------------------------------- well-formed tables

  ghost predicate AddressesUnique(accounts: map<Uuid, Account>) {
    forall a, b | a in accounts && b in accounts && accounts[a].address == accounts[b].address :: a == b
  }

  ghost predicate EmailsUnique(emails: map<Uuid, Email>) {
    forall i, j | i in emails && j in emails && SameKey(emails[i], emails[j]) :: i == j
  }

  predicate SameKey(e: Email, f: Email) {
    e.account == f.account && e.messageId == f.messageId
  }

  ghost predicate EmailsOwned(emails: map<Uuid, Email>, accounts: map<Uuid, Account>) {
    forall id | id in emails :: emails[id].account in accounts
  }

  ghost predicate TrashDated(emails: map<Uuid, Email>) {
    forall id | id in emails :: TrashDatedRow(emails[id])
  }

  predicate TrashDatedRow(e: Email) {
    e.trashed <==> e.trashedAt.Some?
  }

  ghost predicate MatchesUnique(rows: map<Uuid, Classification>) {
    forall c, d | c in rows && d in rows && SameMatch(rows[c], rows[d]) :: c == d
  }

  predicate SameMatch(c: Classification, d: Classification) {
    c.email == d.email && c.criterion == d.criterion
  }

  ghost predicate MatchesLinked(db: Db) {
    forall c | c in db.classifications ::
      db.classifications[c].email in db.emails && db.classifications[c].criterion in db.criteria
  }

  ghost predicate IdsBelow<T>(table: map<Uuid, T>, bound: Uuid) {
    forall id | id in table :: id < bound
  }

  /** Primary and foreign keys, both unique constraints, and "trashed exactly when dated". */
  ghost predicate WF(db: Db) {
    && AddressesUnique(db.accounts)
    && EmailsUnique(db.emails)
    && EmailsOwned(db.emails, db.accounts)
    && TrashDated(db.emails)
    && MatchesUnique(db.classifications)
    && MatchesLinked(db)
    && IdsBelow(db.accounts, db.nextId) && IdsBelow(db.criteria, db.nextId)
    && IdsBelow(db.emails, db.nextId) && IdsBelow(db.classifications, db.nextId)
  }

  lemma OwnerExists(db: Db, id: Uuid)
    requires WF(db) && id in db.emails
    ensures db.emails[id].account in db.accounts
  {
  }

  lemma MatchEndsExist(db: Db, c: Uuid)
    requires WF(db) && c in db.classifications
    ensures db.classifications[c].email in db.emails && db.classifications[c].criterion in db.criteria
  {
  }

  lemma NothingOwned(db: Db, a: Uuid)
    requires WF(db) && a !in db.accounts
    ensures EmailsOf(db.emails, {a}) == {}
  {
  }

  lemma KeyIsUnique(db: Db, i: Uuid, j: Uuid)
    requires WF(db) && i in db.emails && j in db.emails && SameKey(db.emails[i], db.emails[j])
    ensures i == j
  {
  }

  const EMPTY := Db(map[], map[], map[], map[], 0)

  /**
   * What may happen to the emails over time: a surviving row keeps its key, its delivery and
   * creation times, and its "viewed" mark; a deleted identifier never comes back.
   */
  ghost predicate Evolves(before: Db, after: Db) {
    && before.nextId <= after.nextId
    && (forall id | id in after.emails && id < before.nextId :: id in before.emails)
    && (forall id | id in before.emails && id in after.emails ::
          SameIdentity(before.emails[id], after.emails[id]))
  }

  predicate SameIdentity(e: Email, f: Email) {
    && SameKey(e, f)
    && e.receivedAt == f.receivedAt && e.createdAt == f.createdAt
    && (e.viewed ==> f.viewed)
  }

  lemma DeleteRowsOk(db: Db, ids: set<Uuid>)
    requires WF(db)
    ensures WF(DeleteRows(db, ids)) && Evolves(db, DeleteRows(db, ids))
  {
  }

  lemma DeleteAccountsOk(db: Db, ids: set<Uuid>)
    requires WF(db)
    ensures WF(DeleteAccounts(db, ids)) && Evolves(db, DeleteAccounts(db, ids))
  {
    DeleteRowsOk(db, EmailsOf(db.emails, ids));
  }

  lemma ChangeKeepsIdentity(change: Change, e: Email)
    requires TrashDatedRow(e)
    ensures SameIdentity(e, change.On(e)) && TrashDatedRow(change.On(e))
  {
  }

  lemma UpdateRowsOk(db: Db, ids: set<Uuid>, change: Change)
    requires WF(db)
    ensures var after := db.(emails := UpdateRows(db.emails, ids, change)); WF(after) && Evolves(db, after)
  {
    var rows := UpdateRows(db.emails, ids, change);
    forall id | id in rows
      ensures SameIdentity(db.emails[id], rows[id]) && TrashDatedRow(rows[id])
    {
      ChangeKeepsIdentity(change, db.emails[id]);
    }
    forall i, j | i in rows && j in rows && SameKey(rows[i], rows[j])
      ensures i == j
    {
      assert SameKey(db.emails[i], db.emails[j]);
    }
  }

  lemma NewEmailOk(db: Db, row: Email)
    requires WF(db) && row.account in db.accounts && TrashDatedRow(row)
    requires ByMessage(row.account, row.messageId).In(db.emails) == {}
    ensures var after := db.(emails := db.emails[db.nextId := row], nextId := db.nextId + 1);
            WF(after) && Evolves(db, after)
  {
    var rows := db.emails[db.nextId := row];
    forall id | id in db.emails
      ensures !SameKey(db.emails[id], row)
    {
      assert id !in ByMessage(row.account, row.messageId).In(db.emails);
    }
    assert EmailsUnique(rows);
  }

  lemma SaveEmailOk(db: Db, a: Uuid, m: Incoming, now: int)
    requires WF(db)
    ensures WF(SaveEmailRow(db, a, m, now)) && Evolves(db, SaveEmailRow(db, a, m, now))
  {
    EvolvesReflexive(db);
    hide WF, Evolves, UpdateRows;
    var ids := ByMessage(a, m.messageId).In(db.emails);
    if ids != {} {
      UpdateRowsOk(db, ids, Refresh(m));
    } else if a in db.accounts {
      NewEmailOk(db, m.NewRow(a, now));
    }
  }

  lemma SetConfidenceOk(db: Db, ids: set<Uuid>, confidence: Option<real>)
    requires WF(db)
    ensures var after := db.(classifications := Rescored(db.classifications, ids, confidence));
            WF(after) && Evolves(db, after)
  {
    var rows := Rescored(db.classifications, ids, confidence);
    assert forall c | c in rows :: SameMatch(db.classifications[c], rows[c]);
    forall c, d | c in rows && d in rows && SameMatch(rows[c], rows[d])
      ensures c == d
    {
      assert SameMatch(db.classifications[c], db.classifications[d]);
    }
  }

  lemma NewMatchOk(db: Db, row: Classification)
    requires WF(db) && row.email in db.emails && row.criterion in db.criteria
    requires MatchesOf(db.classifications, row.email, row.criterion) == {}
    ensures var after := db.(classifications := db.classifications[db.nextId := row], nextId := db.nextId + 1);
            WF(after) && Evolves(db, after)
  {
    var rows := db.classifications[db.nextId := row];
    forall c | c in db.classifications
      ensures !SameMatch(db.classifications[c], row)
    {
      assert c !in MatchesOf(db.classifications, row.email, row.criterion);
    }
    assert MatchesUnique(rows);
  }

  lemma SaveMatchOk(db: Db, e: Uuid, k: Uuid, confidence: Option<real>, now: int)
    requires WF(db)
    ensures WF(SaveMatch(db, e, k, confidence, now)) && Evolves(db, SaveMatch(db, e, k, confidence, now))
  {
    var ids := MatchesOf(db.classifications, e, k);
    if ids != {} {
      SetConfidenceOk(db, ids, confidence);
    } else if e in db.emails && k in db.criteria {
      NewMatchOk(db, Classification(e, k, confidence, now));
    }
  }

  lemma WipeEmpties(db: Db)
    requires WF(db)
    ensures var after := Apply(db, WipeTables);
            && after.accounts == map[] && after.criteria == map[]
            && after.emails == map[] && after.classifications == map[]
            && after.nextId == db.nextId
  {
  }

  lemma NewAccountOk(db: Db, row: Account)
    requires WF(db) && !AddressTaken(db, row.address)
    ensures var after := db.(accounts := db.accounts[db.nextId := row], nextId := db.nextId + 1);
            WF(after) && Evolves(db, after)
  {
  }

  lemma SetAccountOk(db: Db, a: Uuid, row: Account)
    requires WF(db) && a in db.accounts && row.address == db.accounts[a].address
    ensures var after := db.(accounts := db.accounts[a := row]); WF(after) && Evolves(db, after)
  {
    var accounts := db.accounts[a := row];
    assert forall b | b in accounts :: b in db.accounts && accounts[b].address == db.accounts[b].address;
  }

  lemma NewCriterionOk(db: Db, row: Criterion)
    requires WF(db)
    ensures var after := db.(criteria := db.criteria[db.nextId := row], nextId := db.nextId + 1);
            WF(after) && Evolves(db, after)
  {
  }

  lemma SetCriterionOk(db: Db, k: Uuid, row: Criterion)
    requires WF(db) && k in db.criteria
    ensures var after := db.(criteria := db.criteria[k := row]); WF(after) && Evolves(db, after)
  {
  }

  lemma DeleteCriteriaOk(db: Db, ids: set<Uuid>)
    requires WF(db)
    ensures WF(DeleteCriteria(db, ids)) && Evolves(db, DeleteCriteria(db, ids))
  {
  }

  lemma DropMatchesOk(db: Db, ids: set<Uuid>)
    requires WF(db)
    ensures var after := db.(classifications := db.classifications - ids); WF(after) && Evolves(db, after)
  {
  }

  /** Every statement keeps the tables well formed and lets surviving emails only evolve. */
  lemma ApplyOk(db: Db, w: Write)
    requires WF(db)
    ensures WF(Apply(db, w)) && Evolves(db, Apply(db, w))
  {
    EvolvesReflexive(db);
    hide WF, Evolves;
    match w
    case DeleteAccount(a) => DeleteAccountsOk(db, {a});
    case WipeTables =>
      DeleteAccountsOk(db, db.accounts.Keys);
      var mid := DeleteAccounts(db, db.accounts.Keys);
      DeleteCriteriaOk(mid, db.criteria.Keys);
      EvolvesTransitive(db, mid, Apply(db, w));
    case SaveEmail(a, m, now) => SaveEmailOk(db, a, m, now);
    case UpdateEmails(sel, change) => UpdateRowsOk(db, sel.In(db.emails), change);
    case DeleteEmails(sel) => DeleteRowsOk(db, sel.In(db.emails));
    case TrimInbox(a, maxInbox) => DeleteRowsOk(db, InboxOverflow(db, a, maxInbox));
    case TrimFindings(a, maxFindings) => DeleteRowsOk(db, FindingsOverflow(db, a, maxFindings));
    case SaveClassification(e, k, confidence, now) => SaveMatchOk(db, e, k, confidence, now);
    case InsertAccount(p, address, now) =>
      if !AddressTaken(db, address) { NewAccountOk(db, Account(p, address, None, None, None, now)); }
    case SetSyncError(a, text) =>
      if a in db.accounts { SetAccountOk(db, a, db.accounts[a].(lastError := Some(text))); }
    case UpdateCursor(a, cursor, now) =>
      if a in db.accounts {
        SetAccountOk(db, a, db.accounts[a].Synced(cursor, now));
      }
    case ClearCursor(a) =>
      if a in db.accounts { SetAccountOk(db, a, db.accounts[a].(cursor := None)); }
    case InsertCriterion(name, description, now) =>
      NewCriterionOk(db, Criterion(name, description, true, now));
    case SetCriterionActive(k, on) =>
      if k in db.criteria { SetCriterionOk(db, k, db.criteria[k].(isActive := on)); }
    case DeleteCriterion(k) => DeleteCriteriaOk(db, {k});
    case DeleteClassifications(a, e, k) => DropMatchesOk(db, ClearedRows(db, a, e, k));
  }

  /** Every store reachable from a well-formed one is well formed, and its emails have only evolved. */
  lemma {:induction false} RunOk(db: Db, ws: seq<Write>)
    requires WF(db)
    ensures WF(Run(db, ws)) && Evolves(db, Run(db, ws))
    decreases |ws|
  {
    if ws != [] {
      var mid := Apply(db, ws[0]);
      ApplyOk(db, ws[0]);
      RunOk(mid, ws[1..]);
      EvolvesTransitive(db, mid, Run(db, ws));
    }
  }

  lemma EvolvesReflexive(db: Db)
    ensures Evolves(db, db)
  {
  }

  lemma EvolvesTransitive(x: Db, y: Db, z: Db)
    requires WF(x) && Evolves(x, y) && Evolves(y, z)
    ensures Evolves(x, z)
  {
  }

  /** In particular every store the application can reach from an empty database. */
  lemma ReachableStoresAreWellFormed(ws: seq<Write>)
    ensures WF(Run(EMPTY, ws))
  {
    RunOk(EMPTY, ws);
  }
}
