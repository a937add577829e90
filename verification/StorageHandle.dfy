/**
 * The storage handle: the tables and the credential vault as mutable fields. Every method is
 * tied to the statement it executes; keyring and account-row steps may fail, and the log
 * records each durable combination of account rows and account secrets.
 */
module StorageHandle {
  import opened Prelude
  import opened Store
  import Purge
  import PurgeCounts
  import Stats

  datatype StorageError = Conflict | NotFound | InvalidInput | DbError | KeyringError

  /** How an external step goes: it works, it is refused, or it works but reports a failure. */
  datatype Fault = Healthy | Refused | LostReply

  datatype Durable = Durable(rows: set<Uuid>, secrets: set<Uuid>)

  /** How many of an account's two capacity statements take effect. */
  function StatementsRun(faults: map<Uuid, (Fault, Fault)>, a: Uuid): nat {
    if a !in faults then 2
    else if faults[a].0 == Refused then 0
    else if faults[a].0 == LostReply || faults[a].1 == Refused then 1
    else 2
  }

  /** Every keyring call for these accounts works. */
  predicate AllHealthy(ids: set<Uuid>, keyring: map<Uuid, Fault>) {
    forall id | id in ids && id in keyring :: keyring[id] == Healthy
  }

  /**
   * What a wipe leaves: the tables are emptied exactly when every keyring call and the credentials' removal worked
   * and the transaction was not refused; the vault is empty as soon as every account's secret could be deleted, and
   * never gains or changes one.
   */
  ghost predicate Wiped(db: Db, vault: map<Uuid, string>, keyring: map<Uuid, Fault>, credentials: Fault,
                        transaction: Fault, after: Db, left: map<Uuid, string>) {
    && after == (if AllHealthy(db.accounts.Keys, keyring) && credentials == Healthy && transaction != Refused
                 then Apply(db, WipeTables) else db)
    && (AllHealthy(db.accounts.Keys, keyring) ==> left == map[])
    && (forall id | id in left :: id in vault && left[id] == vault[id])
    && (forall id | id in vault && id !in left :: id !in keyring || keyring[id] != Refused)
  }

  const SECONDS_PER_DAY := 86400
  const MAX_RETENTION_DAYS := 3650

  class Storage {
    var accounts: map<Uuid, Account>
    var criteria: map<Uuid, Criterion>
    var emails: map<Uuid, Email>
    var classifications: map<Uuid, Classification>
    var nextId: Uuid
    var secrets: map<Uuid, string>
    ghost var log: seq<Durable>

    ghost function Tables(): Db
      reads this
    {
      Db(accounts, criteria, emails, classifications, nextId)
    }

    /** Well-formed tables, and at no recorded moment a secret without its account row. */
    ghost predicate Valid()
      reads this
    {
      && WF(Tables())
      && log != [] && log[|log| - 1] == Durable(accounts.Keys, secrets.Keys)
      && (forall d | d in log :: d.secrets <= d.rows)
    }

    constructor ()
      ensures Valid() && Tables() == EMPTY && secrets == map[]
    {
      accounts, criteria, emails, classifications := map[], map[], map[], map[];
      nextId, secrets := 0, map[];
      log := [Durable({}, {})];
    }

    // -------------------------------------------------------------- accounts and secrets

    method AddAccount(provider: Provider, address: string, now: int, fault: Fault)
      returns (r: Result<Uuid, StorageError>)
      requires Valid()
      modifies `accounts, `nextId, `log
      ensures Valid() && old(log) <= log
      ensures Tables() == if fault == Refused then old(Tables())
                          else Apply(old(Tables()), InsertAccount(provider, address, now))
      ensures r == if fault != Healthy then Err(DbError)
                   else if AddressTaken(old(Tables()), address) then Err(Conflict) else Ok(old(nextId))
      ensures r.Ok? ==> r.value in accounts && r.value !in old(accounts)
    {
      if fault == Refused {
        return Err(DbError);
      }
      ApplyOk(Tables(), InsertAccount(provider, address, now));
      if a :| a in accounts && accounts[a].address == address {
        return if fault == Healthy then Err(Conflict) else Err(DbError);
      }
      var id := nextId;
      accounts := accounts[id := Account(provider, address, None, None, None, now)];
      nextId := nextId + 1;
      log := log + [Durable(accounts.Keys, secrets.Keys)];
      r := if fault == LostReply then Err(DbError) else Ok(id);
    }

    /** The vault takes any identifier; a secret without an account row is what every caller must avoid. */
    method SaveAccountSecret(id: Uuid, secret: string, fault: Fault) returns (ok: bool)
      requires Valid()
      modifies `secrets, `log
      ensures old(log) <= log && (Valid() <==> fault == Refused || id in accounts)
      ensures secrets == if fault == Refused then old(secrets) else old(secrets)[id := secret]
      ensures ok <==> fault == Healthy
    {
      if fault != Refused {
        secrets := secrets[id := secret];
        log := log + [Durable(accounts.Keys, secrets.Keys)];
        assert log[|log| - 1] in log && id in secrets;
      }
      ok := fault == Healthy;
    }

    method DeleteAccountSecret(id: Uuid, fault: Fault) returns (ok: bool)
      requires Valid()
      modifies `secrets, `log
      ensures Valid() && old(log) <= log
      ensures secrets == if fault == Refused then old(secrets) else old(secrets) - {id}
      ensures ok <==> fault == Healthy
    {
      if fault != Refused {
        secrets := secrets - {id};
        log := log + [Durable(accounts.Keys, secrets.Keys)];
      }
      ok := fault == Healthy;
    }

    /** Keyring first, then the row with its cascades. */
    method DeleteAccount(id: Uuid, secretFault: Fault, rowFault: Fault) returns (r: Result<(), StorageError>)
      requires Valid()
      modifies `accounts, `emails, `classifications, `secrets, `log
      ensures Valid() && old(log) <= log
      ensures secrets == if secretFault == Refused then old(secrets) else old(secrets) - {id}
      ensures Tables() == if secretFault == Healthy && rowFault != Refused
                          then Apply(old(Tables()), Write.DeleteAccount(id)) else old(Tables())
      ensures r == if secretFault != Healthy then Err(KeyringError)
                   else if rowFault != Healthy then Err(DbError)
                   else if id in old(accounts) then Ok(()) else Err(NotFound)
      ensures r.Ok? ==> id !in accounts && id !in secrets
    {
      hide WF;
      var ok := DeleteAccountSecret(id, secretFault);
      if !ok {
        return Err(KeyringError);
      }
      if rowFault == Refused {
        return Err(DbError);
      }
      ApplyOk(Tables(), Write.DeleteAccount(id));
      var found := id in accounts;
      if found {
        var owned := EmailsOf(emails, {id});
        classifications := WithoutEmails(classifications, owned);
        emails := emails - owned;
        accounts := accounts - {id};
        log := log + [Durable(accounts.Keys, secrets.Keys)];
      } else {
        NothingOwned(Tables(), id);
        assert emails - {} == emails && accounts - {id} == accounts;
        assert WithoutEmails(classifications, {}) == classifications;
      }
      r := if rowFault == LostReply then Err(DbError) else if found then Ok(()) else Err(NotFound);
    }

    /** Secrets of every listed account, then the developer credentials, then all tables in one transaction. */
    method WipeAllData(keyring: map<Uuid, Fault>, credentials: Fault, transaction: Fault)
      returns (r: Result<(), StorageError>)
      requires Valid()
      modifies `accounts, `criteria, `emails, `classifications, `secrets, `log
      ensures Valid() && old(log) <= log
      ensures var vault := AllHealthy(old(accounts.Keys), keyring);
              && (r.Ok? <==> vault && credentials == Healthy && transaction == Healthy)
              && (r == Err(KeyringError) <==> !vault || credentials != Healthy)
              && (r == Err(DbError) <==> vault && credentials == Healthy && transaction != Healthy)
      ensures Wiped(old(Tables()), old(secrets), keyring, credentials, transaction, Tables(), secrets)
      ensures Tables() != old(Tables()) || r.Ok? ==>
                && secrets == map[] && accounts == map[] && criteria == map[]
                && emails == map[] && classifications == map[]
    {
      hide WF, Apply;
      var ok := DeleteSecrets(keyring);
      if !ok {
        return Err(KeyringError);
      }
      if credentials != Healthy {
        return Err(KeyringError);
      }
      if transaction == Refused {
        return Err(DbError);
      }
      EmptyTables();
      r := if transaction == LostReply then Err(DbError) else Ok(());
    }

    /** The secrets of all accounts, up to the first call that reports a failure. */
    method DeleteSecrets(keyring: map<Uuid, Fault>) returns (ok: bool)
      requires Valid()
      modifies `secrets, `log
      ensures Valid() && old(log) <= log
      ensures ok <==> AllHealthy(accounts.Keys, keyring)
      ensures ok ==> secrets == map[]
      ensures forall id | id in secrets :: id in old(secrets) && secrets[id] == old(secrets[id])
      ensures forall id | id in old(secrets) && id !in secrets :: id !in keyring || keyring[id] != Refused
    {
      hide WF;
      var todo := accounts.Keys;
      assert secrets.Keys <= todo by { assert log[|log| - 1] in log; }
      while todo != {}
        invariant Valid() && old(log) <= log
        invariant todo <= accounts.Keys && secrets.Keys <= todo
        invariant AllHealthy(accounts.Keys - todo, keyring)
        invariant forall id | id in secrets :: id in old(secrets) && secrets[id] == old(secrets[id])
        invariant forall id | id in old(secrets) && id !in secrets :: id !in keyring || keyring[id] != Refused
        decreases |todo|
      {
        var id :| id in todo;
        ok := DeleteAccountSecret(id, if id in keyring then keyring[id] else Healthy);
        if !ok {
          return;
        }
        todo := todo - {id};
      }
      assert secrets == map[] && accounts.Keys - todo == accounts.Keys;
      ok := true;
    }

    /** The transaction that deletes every account and every criterion, once the vault holds no secret. */
    method EmptyTables()
      requires Valid() && secrets == map[]
      modifies `accounts, `criteria, `emails, `classifications, `log
      ensures Valid() && old(log) <= log
      ensures Tables() == Apply(old(Tables()), WipeTables)
      ensures accounts == map[] && criteria == map[] && emails == map[] && classifications == map[]
    {
      hide WF, Apply;
      ApplyOk(Tables(), WipeTables);
      WipeEmpties(Tables());
      classifications, emails, criteria, accounts := map[], map[], map[], map[];
      log := log + [Durable(accounts.Keys, secrets.Keys)];
    }

    // -------------------------------------------------------------- sync state

    method SetSyncError(id: Uuid, text: string)
      requires Valid()
      modifies `accounts
      ensures Valid() && Tables() == Apply(old(Tables()), Write.SetSyncError(id, text))
    {
      ApplyOk(Tables(), Write.SetSyncError(id, text));
      if id in accounts {
        accounts := accounts[id := accounts[id].(lastError := Some(text))];
        assert accounts.Keys == old(accounts.Keys);
      }
    }

    method UpdateSyncCursor(id: Uuid, cursor: string, now: int)
      requires Valid()
      modifies `accounts
      ensures Valid() && Tables() == Apply(old(Tables()), UpdateCursor(id, cursor, now))
    {
      ApplyOk(Tables(), UpdateCursor(id, cursor, now));
      if id in accounts {
        accounts := accounts[id := accounts[id].(cursor := Some(cursor), lastSyncedAt := Some(now), lastError := None)];
        assert accounts.Keys == old(accounts.Keys);
      }
    }

    method ClearSyncCursor(id: Uuid)
      requires Valid()
      modifies `accounts
      ensures Valid() && Tables() == Apply(old(Tables()), ClearCursor(id))
    {
      ApplyOk(Tables(), ClearCursor(id));
      if id in accounts {
        accounts := accounts[id := accounts[id].(cursor := None)];
        assert accounts.Keys == old(accounts.Keys);
      }
    }

    // -------------------------------------------------------------- emails

    /** The upsert; returns the stable identifier of the row, new or old. */
    method SaveEmail(account: Uuid, m: Incoming, now: int) returns (r: Result<Uuid, StorageError>)
      requires Valid()
      modifies `emails, `nextId
      ensures Valid() && Tables() == Apply(old(Tables()), Write.SaveEmail(account, m, now))
      ensures r.Ok? <==> account in accounts
      ensures r.Ok? ==> r.value in emails && ByMessage(account, m.messageId).Hits(r.value, emails[r.value])
      ensures r.Ok? ==> forall id | id in old(emails) && ByMessage(account, m.messageId).Hits(id, old(emails)[id]) ::
                          && r.value == id
                          && emails[id].receivedAt == old(emails)[id].receivedAt
                          && emails[id].viewed == old(emails)[id].viewed
                          && emails[id].trashed == old(emails)[id].trashed
                          && emails[id].trashedAt == old(emails)[id].trashedAt
    {
      hide WF;
      ghost var before := Tables();
      ApplyOk(before, Write.SaveEmail(account, m, now));
      var rows := ByMessage(account, m.messageId).In(emails);
      if id :| id in rows {
        OwnerExists(before, id);
        forall j | j in rows ensures j == id {
          KeyIsUnique(before, j, id);
        }
        assert forall j | j in emails && ByMessage(account, m.messageId).Hits(j, emails[j]) :: j in rows;
        emails := UpdateRows(emails, rows, Refresh(m));
        return Ok(id);
      }
      assert rows == {};
      assert forall j | j in emails :: j !in rows;
      if account !in accounts {
        return Err(DbError);
      }
      r := Ok(nextId);
      emails := emails[nextId := m.NewRow(account, now)];
      nextId := nextId + 1;
    }

    method UpdateEmails(sel: Selector, change: Change) returns (affected: nat)
      requires Valid()
      modifies `emails
      ensures Valid() && Tables() == Apply(old(Tables()), Write.UpdateEmails(sel, change))
      ensures affected == |sel.In(old(emails))|
    {
      hide WF;
      ApplyOk(Tables(), Write.UpdateEmails(sel, change));
      affected := |sel.In(emails)|;
      emails := UpdateRows(emails, sel.In(emails), change);
    }

    /** Deletes rows with their cascade and counts them. */
    method DeleteIds(ids: set<Uuid>) returns (affected: nat)
      requires Valid() && ids <= emails.Keys
      modifies `emails, `classifications
      ensures Valid() && Tables() == DeleteRows(old(Tables()), ids)
      ensures affected == |ids| == |old(emails)| - |emails|
    {
      hide WF;
      DeleteRowsOk(Tables(), ids);
      RemovedCount(emails, ids);
      classifications := WithoutEmails(classifications, ids);
      emails := emails - ids;
      affected := |ids|;
    }

    method DeleteEmails(sel: Selector) returns (affected: nat)
      requires Valid()
      modifies `emails, `classifications
      ensures Valid() && Tables() == Apply(old(Tables()), Write.DeleteEmails(sel))
      ensures affected == |sel.In(old(emails))| == |old(emails)| - |emails|
    {
      hide WF, DeleteRows;
      affected := DeleteIds(sel.In(emails));
    }

    method MarkTrashed(account: Uuid, messageId: string, now: int)
      requires Valid()
      modifies `emails
      ensures Valid() && Tables() == Apply(old(Tables()), Write.UpdateEmails(ByMessage(account, messageId), Trash(now)))
    {
      var _ := UpdateEmails(ByMessage(account, messageId), Trash(now));
    }

    method MarkUntrashed(account: Uuid, messageId: string)
      requires Valid()
      modifies `emails
      ensures Valid() && Tables() == Apply(old(Tables()), Write.UpdateEmails(ByMessage(account, messageId), Untrash))
    {
      var _ := UpdateEmails(ByMessage(account, messageId), Untrash);
    }

    method DeleteByProviderMessageId(account: Uuid, messageId: string)
      requires Valid()
      modifies `emails, `classifications
      ensures Valid() && Tables() == Apply(old(Tables()), Write.DeleteEmails(ByMessage(account, messageId)))
    {
      var _ := DeleteEmails(ByMessage(account, messageId));
    }

    /** Statements by row identifier report a missing row. */
    method ChangeEmail(id: Uuid, change: Change) returns (r: Result<(), StorageError>)
      requires Valid()
      modifies `emails
      ensures Valid() && Tables() == Apply(old(Tables()), Write.UpdateEmails(ById(id), change))
      ensures r == if id in old(emails) then Ok(()) else Err(NotFound)
    {
      var n := UpdateEmails(ById(id), change);
      assert id in old(emails) ==> id in ById(id).In(old(emails));
      r := if n == 0 then Err(NotFound) else Ok(());
    }

    method TrashEmail(id: Uuid, now: int) returns (r: Result<(), StorageError>)
      requires Valid()
      modifies `emails
      ensures Valid() && Tables() == Apply(old(Tables()), Write.UpdateEmails(ById(id), Trash(now)))
      ensures r == if id in old(emails) then Ok(()) else Err(NotFound)
    {
      r := ChangeEmail(id, Trash(now));
    }

    method RestoreEmail(id: Uuid) returns (r: Result<(), StorageError>)
      requires Valid()
      modifies `emails
      ensures Valid() && Tables() == Apply(old(Tables()), Write.UpdateEmails(ById(id), Untrash))
      ensures r == if id in old(emails) then Ok(()) else Err(NotFound)
    {
      r := ChangeEmail(id, Untrash);
    }

    method MarkEmailViewed(id: Uuid) returns (r: Result<(), StorageError>)
      requires Valid()
      modifies `emails
      ensures Valid() && Tables() == Apply(old(Tables()), Write.UpdateEmails(ById(id), SetViewed))
      ensures r == if id in old(emails) then Ok(()) else Err(NotFound)
    {
      r := ChangeEmail(id, SetViewed);
    }

    method DeleteEmail(id: Uuid) returns (r: Result<(), StorageError>)
      requires Valid()
      modifies `emails, `classifications
      ensures Valid() && Tables() == Apply(old(Tables()), Write.DeleteEmails(ById(id)))
      ensures r == if id in old(emails) then Ok(()) else Err(NotFound)
    {
      var n := DeleteEmails(ById(id));
      assert id in old(emails) ==> id in ById(id).In(old(emails));
      r := if n == 0 then Err(NotFound) else Ok(());
    }

    method MarkAllRead(account: Option<Uuid>)
      requires Valid()
      modifies `emails
      ensures Valid() && Tables() == Apply(old(Tables()), Write.UpdateEmails(Active(account), ReadAndViewed))
      ensures Stats.GetMailboxStats(Tables(), account).unread == 0
    {
      Stats.MarkAllReadClearsUnread(Tables(), account);
      var _ := UpdateEmails(Active(account), ReadAndViewed);
    }

    /** Removes exactly the trash dated at or before the cutoff; rejects a retention outside 0..3650 days. */
    method PurgeExpiredTrash(retentionDays: int, now: int) returns (r: Result<nat, StorageError>)
      requires Valid()
      modifies `emails, `classifications
      ensures Valid()
      ensures r.Ok? <==> 0 <= retentionDays <= 3650
      ensures r.Err? ==> r == Err(InvalidInput) && Tables() == old(Tables())
      ensures var cutoff := now - retentionDays * 86400;
              r.Ok? ==> Tables() == Apply(old(Tables()), Write.DeleteEmails(ExpiredTrash(cutoff)))
      ensures r.Ok? ==> r.value == |old(emails)| - |emails|
      ensures var cutoff := now - retentionDays * 86400;
              r.Ok? ==> forall id | id in old(emails) :: id !in emails <==> TrashedBy(old(emails)[id], cutoff)
    {
      hide WF;
      if !(0 <= retentionDays <= MAX_RETENTION_DAYS) {
        return Err(InvalidInput);
      }
      var n := DeleteEmails(ExpiredTrash(now - retentionDays * SECONDS_PER_DAY));
      r := Ok(n);
    }

    method TrimInbox(account: Uuid, maxInbox: int) returns (removed: nat)
      requires Valid()
      modifies `emails, `classifications
      ensures Valid() && Tables() == Apply(old(Tables()), Write.TrimInbox(account, maxInbox))
      ensures removed == |InboxOverflow(old(Tables()), account, maxInbox)|
    {
      hide WF, InboxOverflow, DeleteRows;
      OverflowIsStored(Tables(), account, maxInbox);
      var tables := Db(accounts, criteria, emails, classifications, nextId);
      removed := DeleteIds(InboxOverflow(tables, account, maxInbox));
    }

    method TrimFindings(account: Uuid, maxFindings: int) returns (removed: nat)
      requires Valid()
      modifies `emails, `classifications
      ensures Valid() && Tables() == Apply(old(Tables()), Write.TrimFindings(account, maxFindings))
      ensures removed == |FindingsOverflow(old(Tables()), account, maxFindings)|
    {
      hide WF, FindingsOverflow, DeleteRows;
      OverflowIsStored(Tables(), account, maxFindings);
      var tables := Db(accounts, criteria, emails, classifications, nextId);
      removed := DeleteIds(FindingsOverflow(tables, account, maxFindings));
    }

    /**
     * The two capacity statements, each committed by itself; a failure of the first skips the second.
     * Returns how many rows each removed.
     */
    method PurgeOldEmails(account: Uuid, maxInbox: int, maxFindings: int, first: Fault, second: Fault)
      returns (r: Result<(nat, nat), StorageError>)
      requires Valid()
      modifies `emails, `classifications
      ensures Valid()
      ensures var db := old(Tables());
              var mid := if first == Refused then db else Apply(db, Write.TrimInbox(account, maxInbox));
              Tables() == if first != Healthy || second == Refused then mid
                          else Apply(mid, Write.TrimFindings(account, maxFindings))
      ensures r.Ok? <==> first == Healthy && second == Healthy
      ensures r.Ok? ==> Tables() == Purge.PurgeOldRows(old(Tables()), account, maxInbox, maxFindings)
                        && r.value.0 == |PurgeCounts.RemovedOf(old(Tables()), Tables(), false)|
                        && r.value.1 == |PurgeCounts.RemovedOf(old(Tables()), Tables(), true)|
      ensures r.Err? ==> r.error == DbError
                         && (|| Tables() == old(Tables())
                             || Tables() == Apply(old(Tables()), Write.TrimInbox(account, maxInbox))
                             || Tables() == Purge.PurgeOldRows(old(Tables()), account, maxInbox, maxFindings))
    {
      PurgeCounts.EachStatementItsKind(Tables(), account, maxInbox, maxFindings);
      hide WF, Apply, InboxOverflow, FindingsOverflow, DeleteRows, PurgeCounts.RemovedOf;
      if first == Refused {
        return Err(DbError);
      }
      PurgeMeans(Tables(), account, maxInbox);
      var inbox := TrimInbox(account, maxInbox);
      if first != Healthy || second == Refused {
        return Err(DbError);
      }
      var findings := TrimFindings(account, maxFindings);
      r := if second == Healthy then Ok((inbox, findings)) else Err(DbError);
    }

    /**
     * Purges account after account and adds up the counts of each kind; `faults` says how the two
     * statements of an account go. The first failure ends the run: the accounts before it are purged,
     * its own account has at most its first statement done, and the others are as they were.
     */
    method PurgeOldEmailsAll(maxInbox: int, maxFindings: int, faults: map<Uuid, (Fault, Fault)>)
      returns (r: Result<(nat, nat), StorageError>)
      requires Valid()
      modifies `emails, `classifications
      ensures Valid()
      ensures r.Ok? <==> forall a | a in accounts && a in faults :: faults[a] == (Healthy, Healthy)
      ensures r.Ok? ==> PurgeCounts.Tally(old(Tables()), Tables(), r.value.0, r.value.1)
                        && Purge.PurgedExcept(old(Tables()), Tables(), accounts.Keys, {}, maxInbox, maxFindings)
      ensures Purge.OnlyDeletions(old(Tables()), Tables())
      ensures r.Err? ==> r.error == DbError && exists a, todo ::
                && Purge.StoppedAt(old(Tables()), Tables(), accounts.Keys, todo, a, StatementsRun(faults, a),
                                   maxInbox, maxFindings)
                && a in faults && faults[a] != (Healthy, Healthy)
                && forall b | b in accounts.Keys - todo - {a} && b in faults :: faults[b] == (Healthy, Healthy)
    {
      hide WF, Apply;
      ghost var start := Tables();
      hide Purge.PurgedExcept, PurgeCounts.Tally, PurgeCounts.RemovedOf, Purge.StoppedAt, Purge.PurgeOldRows;
      hide Purge.OnlyDeletions, Purge.Executed;
      Purge.NothingPurgedYet(start, accounts.Keys, maxInbox, maxFindings);
      PurgeCounts.TallyNothing(start);
      var inbox, findings := 0, 0;
      var todo := accounts.Keys;
      while todo != {}
        invariant Valid() && todo <= accounts.Keys
        invariant forall a | a in accounts && a !in todo && a in faults :: faults[a] == (Healthy, Healthy)
        invariant PurgeCounts.Tally(start, Tables(), inbox, findings) && Purge.OnlyDeletions(start, Tables())
        invariant Purge.PurgedExcept(start, Tables(), accounts.Keys, todo, maxInbox, maxFindings)
        decreases |todo|
      {
        var a :| a in todo;
        ghost var mid := Tables();
        var fault := if a in faults then faults[a] else (Healthy, Healthy);
        var purged := PurgeOldEmails(a, maxInbox, maxFindings, fault.0, fault.1);
        Purge.StillDeletions(start, mid, Tables(), a, maxInbox, maxFindings);
        if purged.Err? {
          ExecutedMeans(mid, a, maxInbox, maxFindings);
          Purge.StoppedWithin(start, mid, accounts.Keys, todo, a, StatementsRun(faults, a), maxInbox, maxFindings);
          assert Purge.StoppedAt(start, Tables(), accounts.Keys, todo - {a}, a, StatementsRun(faults, a),
                                 maxInbox, maxFindings);
          assert a in faults && faults[a] != (Healthy, Healthy);
          assert forall b | b in accounts.Keys - (todo - {a}) - {a} :: b in accounts && b !in todo;
          return Err(purged.error);
        }
        var (i, f) := purged.value;
        Purge.PurgeOneMore(start, mid, Tables(), accounts.Keys, todo, a, maxInbox, maxFindings);
        PurgeCounts.TallyOneMore(start, mid, Tables(), a, maxInbox, maxFindings, inbox, findings, i, f);
        inbox, findings := inbox + i, findings + f;
        todo := todo - {a};
      }
      r := Ok((inbox, findings));
    }

    method GetMailboxStats(scope: Option<Uuid>) returns (s: Stats.MailboxStats)
      requires Valid()
      ensures s == Stats.GetMailboxStats(Tables(), scope)
      ensures s.findings <= s.unread <= s.total
    {
      s := Stats.GetMailboxStats(Db(accounts, criteria, emails, classifications, nextId), scope);
      Stats.CountersAreOrdered(Tables(), scope);
    }

    // -------------------------------------------------------------- criteria and classifications

    method AddCriterion(name: string, description: string, now: int) returns (id: Uuid)
      requires Valid()
      modifies `criteria, `nextId
      ensures Valid() && Tables() == Apply(old(Tables()), InsertCriterion(name, description, now))
      ensures id !in old(criteria) && id in criteria
    {
      ApplyOk(Tables(), InsertCriterion(name, description, now));
      id := nextId;
      criteria := criteria[id := Criterion(name, description, true, now)];
      nextId := nextId + 1;
    }

    method DeleteCriterion(id: Uuid) returns (r: Result<(), StorageError>)
      requires Valid()
      modifies `criteria, `classifications
      ensures Valid() && Tables() == Apply(old(Tables()), Write.DeleteCriterion(id))
      ensures r == if id in old(criteria) then Ok(()) else Err(NotFound)
      ensures forall c | c in classifications :: classifications[c].criterion != id
    {
      ApplyOk(Tables(), Write.DeleteCriterion(id));
      r := if id in criteria then Ok(()) else Err(NotFound);
      classifications := WithoutCriteria(classifications, {id});
      criteria := criteria - {id};
    }

    /** The upsert of a match; fails when the email or the criterion is gone. */
    method SaveClassification(email: Uuid, criterion: Uuid, confidence: Option<real>, now: int) returns (ok: bool)
      requires Valid()
      modifies `classifications, `nextId
      ensures Valid() && Tables() == Apply(old(Tables()), Write.SaveClassification(email, criterion, confidence, now))
      ensures ok <==> email in emails && criterion in criteria
      ensures ok ==> exists c | c in classifications ::
                classifications[c].email == email && classifications[c].criterion == criterion
                && classifications[c].confidence == confidence
    {
      hide WF;
      ApplyOk(Tables(), Write.SaveClassification(email, criterion, confidence, now));
      var ids := MatchesOf(classifications, email, criterion);
      if c :| c in ids {
        MatchEndsExist(Tables(), c);
        classifications := Rescored(classifications, ids, confidence);
        assert c in classifications && classifications[c].confidence == confidence;
        return true;
      }
      assert ids == {};
      if email !in emails || criterion !in criteria {
        return false;
      }
      classifications := classifications[nextId := Classification(email, criterion, confidence, now)];
      assert classifications[nextId].confidence == confidence;
      nextId := nextId + 1;
      ok := true;
    }

    method DeleteClassification(email: Uuid, criterion: Uuid)
      requires Valid()
      modifies `classifications
      ensures Valid() && Tables() == Apply(old(Tables()), DeleteClassifications(None, Some(email), Some(criterion)))
    {
      var _ := ClearMatching(None, Some(email), Some(criterion));
    }

    method ClearClassifications(account: Option<Uuid>, criterion: Option<Uuid>) returns (affected: nat)
      requires Valid()
      modifies `classifications
      ensures Valid() && Tables() == Apply(old(Tables()), DeleteClassifications(account, None, criterion))
      ensures affected == |old(classifications)| - |classifications|
    {
      affected := ClearMatching(account, None, criterion);
    }

    method ClearMatching(account: Option<Uuid>, email: Option<Uuid>, criterion: Option<Uuid>) returns (affected: nat)
      requires Valid()
      modifies `classifications
      ensures Valid() && Tables() == Apply(old(Tables()), DeleteClassifications(account, email, criterion))
      ensures affected == |old(classifications)| - |classifications|
    {
      hide WF, Apply, ClearedRows;
      ghost var before := Tables();
      ApplyOk(before, DeleteClassifications(account, email, criterion));
      ClearMeans(before, account, email, criterion);
      var gone := ClearedRows(Db(accounts, criteria, emails, classifications, nextId), account, email, criterion);
      RemovedCount(classifications, gone);
      affected := |gone|;
      classifications := classifications - gone;
    }
  }

  predicate TrashedBy(e: Email, cutoff: int) {
    e.trashed && (e.trashedAt.Some? ==> e.trashedAt.value <= cutoff)
  }

  lemma ClearMeans(db: Db, a: Option<Uuid>, e: Option<Uuid>, k: Option<Uuid>)
    ensures Apply(db, DeleteClassifications(a, e, k))
         == db.(classifications := db.classifications - ClearedRows(db, a, e, k))
    ensures ClearedRows(db, a, e, k) <= db.classifications.Keys
  {
  }

  lemma PurgeMeans(db: Db, a: Uuid, maxInbox: int)
    ensures Apply(db, Write.TrimInbox(a, maxInbox)) == DeleteRows(db, InboxOverflow(db, a, maxInbox))
  {
  }

  lemma ExecutedMeans(db: Db, a: Uuid, maxInbox: int, maxFindings: int)
    ensures Purge.Executed(db, a, 0, maxInbox, maxFindings) == db
    ensures Purge.Executed(db, a, 1, maxInbox, maxFindings) == Apply(db, Write.TrimInbox(a, maxInbox))
    ensures Purge.Executed(db, a, 2, maxInbox, maxFindings)
         == Apply(Apply(db, Write.TrimInbox(a, maxInbox)), Write.TrimFindings(a, maxFindings))
  {
    hide Apply;
  }

  lemma OverflowIsStored(db: Db, a: Uuid, k: int)
    ensures InboxOverflow(db, a, k) <= db.emails.Keys && FindingsOverflow(db, a, k) <= db.emails.Keys
  {
  }

  lemma RemovedCount<T>(table: map<Uuid, T>, ids: set<Uuid>)
    requires ids <= table.Keys
    ensures |table - ids| == |table| - |ids|
  {
    assert (table - ids).Keys == table.Keys - ids;
    assert |table.Keys| == |table| && |(table - ids).Keys| == |table - ids|;
  }
}
