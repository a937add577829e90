/** Linking and unlinking mailboxes: an account row and a vault secret kept in step under failures. */
module Linking {
  import opened Prelude
  import opened Text
  import opened Store
  import opened StorageHandle

  datatype LinkError = ProfileFailed | NoRefreshToken | AlreadyLinked | NotStored(error: StorageError)

  /** How the steps of one attempt go: the row, its secret, and the two steps of the roll-back. */
  datatype LinkFaults = LinkFaults(row: Fault, secret: Fault, undoSecret: Fault, undoRow: Fault)
  {
    /** The attempt, for an address not linked yet, ends with an account row. */
    predicate LeavesRow() {
      row == LostReply || (row == Healthy && (secret == Healthy || undoSecret != Healthy || undoRow == Refused))
    }

    /** The attempt ends with a secret in the vault. */
    predicate LeavesSecret() {
      row == Healthy && (secret == Healthy || (secret == LostReply && undoSecret == Refused))
    }
  }

  // ---------------------------------------------------------------- passwords

  /** An app password without its space groupings. */
  function WithoutSpaces(s: string): (r: string)
    ensures forall c :: c in r <==> c in s && !IsSpace(c)
  {
    if s == "" then "" else (if IsSpace(s[0]) then [] else [s[0]]) + WithoutSpaces(s[1..])
  }

  /** The characters that are not white space, each once and in their order. */
  ghost predicate KeepsAt(s: string, r: string, at: seq<nat>) {
    && |at| == |r|
    && (forall k | 0 <= k < |at| :: at[k] < |s| && s[at[k]] == r[k])
    && (forall k, l | 0 <= k < l < |at| :: at[k] < at[l])
    && (forall i: nat | i < |s| :: i in at <==> !IsSpace(s[i]))
  }

  lemma {:induction false} WithoutSpacesKeepsTheOrder(s: string) returns (at: seq<nat>)
    ensures KeepsAt(s, WithoutSpaces(s), at)
  {
    if s == "" {
      at := [];
    } else {
      var later := WithoutSpacesKeepsTheOrder(s[1..]);
      at := Shifted(later);
      ShiftedKeeps(s, WithoutSpaces(s[1..]), later);
      if !IsSpace(s[0]) {
        FirstKept(s, WithoutSpaces(s[1..]), at);
        at := [0] + at;
      }
    }
  }

  function Shifted(at: seq<nat>): seq<nat> {
    seq(|at|, k requires 0 <= k < |at| => at[k] + 1)
  }

  /** Kept positions from the second character on. */
  ghost predicate KeepsFromSecond(s: string, r: string, at: seq<nat>) {
    && |at| == |r|
    && (forall k | 0 <= k < |at| :: 0 < at[k] < |s| && s[at[k]] == r[k])
    && (forall k, l | 0 <= k < l < |at| :: at[k] < at[l])
    && (forall i: nat | 0 < i < |s| :: i in at <==> !IsSpace(s[i]))
  }

  lemma ShiftedKeeps(s: string, r: string, later: seq<nat>)
    requires s != "" && KeepsAt(s[1..], r, later)
    ensures KeepsFromSecond(s, r, Shifted(later))
    ensures IsSpace(s[0]) ==> KeepsAt(s, r, Shifted(later))
  {
    hide IsSpace;
    var at := Shifted(later);
    forall i: nat | 0 < i < |s| ensures i in at <==> !IsSpace(s[i]) {
      assert s[1..][i - 1] == s[i];
      if k :| 0 <= k < |later| && later[k] == i - 1 {
        assert at[k] == i;
      }
    }
  }

  lemma FirstKept(s: string, r: string, at: seq<nat>)
    requires s != "" && KeepsFromSecond(s, r, at) && !IsSpace(s[0])
    ensures KeepsAt(s, [s[0]] + r, [0] + at)
  {
    hide IsSpace;
  }

  /** Grouping does not matter: however a password is cut up by white space, the same one is stored. */
  lemma {:induction false} GroupingDoesNotMatter(left: string, gap: string, right: string)
    requires forall c | c in gap :: IsSpace(c)
    ensures WithoutSpaces(left + gap + right) == WithoutSpaces(left + right)
    decreases |left|, |gap|
  {
    var s := left + gap + right;
    if left != "" {
      assert s[1..] == left[1..] + gap + right;
      assert (left + right)[1..] == left[1..] + right;
      GroupingDoesNotMatter(left[1..], gap, right);
    } else if gap != "" {
      assert s[1..] == left + gap[1..] + right;
      GroupingDoesNotMatter(left, gap[1..], right);
    } else {
      assert s == left + right;
    }
  }

  // ---------------------------------------------------------------- one attempt

  /** Adding an account that owns nothing and deleting it again gives the tables back. */
  lemma AddThenDelete(db: Db, provider: Provider, address: string, now: int)
    requires WF(db) && !AddressTaken(db, address)
    ensures Apply(Apply(db, InsertAccount(provider, address, now)), Write.DeleteAccount(db.nextId))
         == db.(nextId := db.nextId + 1)
  {
    var mid := Apply(db, InsertAccount(provider, address, now));
    NothingOwned(db, db.nextId);
    assert EmailsOf(mid.emails, {db.nextId}) == {};
    assert mid.accounts - {db.nextId} == db.accounts;
    assert mid.emails - {} == db.emails;
    assert WithoutEmails(mid.classifications, {}) == db.classifications;
  }

  /** The tables and the vault at one moment. */
  datatype Moment = Moment(db: Db, vault: map<Uuid, string>)

  /**
   * What an attempt to add an account with a secret reports and leaves behind, for every combination of failures:
   * a secret only with its row, both after a success, and neither when the roll-back gets through.
   */
  ghost predicate Registered(before: Moment, provider: Provider, address: string, secret: string, now: int,
                             faults: LinkFaults, r: Result<Uuid, LinkError>, after: Moment) {
    var db, taken := before.db, AddressTaken(before.db, address);
    && (r.Ok? <==> !taken && faults.row == Healthy && faults.secret == Healthy)
    && (r.Ok? ==> r.value == db.nextId)
    && (r == Err(AlreadyLinked) <==> taken && faults.row == Healthy)
    && (r == Err(NotStored(DbError)) <==> faults.row != Healthy)
    && (r == Err(NotStored(KeyringError)) <==> !taken && faults.row == Healthy && faults.secret != Healthy)
    && after.vault == (if !taken && faults.LeavesSecret() then before.vault[db.nextId := secret] else before.vault)
    && after.db == (if taken || faults.row == Refused then db
                    else if faults.LeavesRow() then Apply(db, InsertAccount(provider, address, now))
                    else db.(nextId := db.nextId + 1))
  }

  /** The row first, then the secret; the row is removed again when the secret is not confirmed. */
  method Register(storage: Storage, provider: Provider, address: string, secret: string, now: int, faults: LinkFaults)
    returns (r: Result<Uuid, LinkError>)
    requires storage.Valid()
    modifies storage
    ensures storage.Valid() && old(storage.log) <= storage.log
    ensures Registered(Moment(old(storage.Tables()), old(storage.secrets)), provider, address, secret, now, faults, r,
                       Moment(storage.Tables(), storage.secrets))
    ensures r.Ok? ==> r.value in storage.accounts && r.value in storage.secrets
  {
    hide WF, Apply;
    ghost var db := storage.Tables();
    UnusedIds(storage);
    TakenChangesNothing(db, provider, address, now);
    var added := storage.AddAccount(provider, address, now, faults.row);
    if added.Err? {
      return Err(if added.error == Conflict then AlreadyLinked else NotStored(added.error));
    }
    AddThenDelete(db, provider, address, now);
    var id := added.value;
    var stored := storage.SaveAccountSecret(id, secret, faults.secret);
    if !stored {
      var _ := storage.DeleteAccount(id, faults.undoSecret, faults.undoRow);
      assert old(storage.secrets) - {id} == old(storage.secrets);
      assert old(storage.secrets)[id := secret] - {id} == old(storage.secrets);
      return Err(NotStored(KeyringError));
    }
    r := Ok(id);
  }

  lemma TakenChangesNothing(db: Db, provider: Provider, address: string, now: int)
    ensures AddressTaken(db, address) ==> Apply(db, InsertAccount(provider, address, now)) == db
  {
  }

  /** The next identifier names neither a row nor a secret. */
  lemma UnusedIds(storage: Storage)
    requires storage.Valid()
    ensures storage.nextId !in storage.accounts && storage.secrets.Keys <= storage.accounts.Keys
  {
    assert storage.log[|storage.log| - 1] in storage.log;
  }

  /** OAuth: the refresh token is checked before anything is written. */
  method LinkAccount(storage: Storage, provider: Provider, refreshToken: Option<string>, address: Option<string>,
                     now: int, faults: LinkFaults)
    returns (r: Result<Uuid, LinkError>)
    requires storage.Valid()
    modifies storage
    ensures storage.Valid() && old(storage.log) <= storage.log
    ensures refreshToken.None? ==> r == Err(NoRefreshToken)
    ensures refreshToken.Some? && address.None? ==> r == Err(ProfileFailed)
    ensures refreshToken.None? || address.None? ==> unchanged(storage)
    ensures refreshToken.Some? && address.Some? ==>
              Registered(Moment(old(storage.Tables()), old(storage.secrets)), provider, address.value,
                         refreshToken.value, now, faults, r, Moment(storage.Tables(), storage.secrets))
    ensures r.Ok? ==>
              && r.value == old(storage.nextId)
              && storage.Tables() == Apply(old(storage.Tables()), InsertAccount(provider, address.value, now))
              && storage.secrets == old(storage.secrets)[r.value := refreshToken.value]
    ensures r.Err? && faults.undoSecret == Healthy && faults.undoRow != Refused && faults.row != LostReply ==>
              storage.accounts == old(storage.accounts) && storage.secrets == old(storage.secrets)
  {
    hide WF;
    if refreshToken.None? {
      return Err(NoRefreshToken);
    }
    if address.None? {
      return Err(ProfileFailed);
    }
    r := Register(storage, provider, address.value, refreshToken.value, now, faults);
  }

  /** IMAP: the password is stripped, then tried on the server, then stored. */
  method LinkImapAccount(storage: Storage, address: string, password: string, accepted: string -> bool,
                         now: int, faults: LinkFaults)
    returns (r: Result<Uuid, LinkError>)
    requires storage.Valid()
    modifies storage
    ensures storage.Valid() && old(storage.log) <= storage.log
    ensures !accepted(WithoutSpaces(password)) ==> r == Err(ProfileFailed) && unchanged(storage)
    ensures accepted(WithoutSpaces(password)) ==>
              Registered(Moment(old(storage.Tables()), old(storage.secrets)), Imap, address, WithoutSpaces(password),
                         now, faults, r, Moment(storage.Tables(), storage.secrets))
    ensures r.Ok? ==>
              && r.value == old(storage.nextId)
              && storage.Tables() == Apply(old(storage.Tables()), InsertAccount(Imap, address, now))
              && storage.secrets == old(storage.secrets)[r.value := WithoutSpaces(password)]
              && accepted(storage.secrets[r.value])
    ensures r.Err? && faults.undoSecret == Healthy && faults.undoRow != Refused && faults.row != LostReply ==>
              storage.accounts == old(storage.accounts) && storage.secrets == old(storage.secrets)
  {
    hide WF;
    var cleanPassword := WithoutSpaces(password);
    if !accepted(cleanPassword) {
      return Err(ProfileFailed);
    }
    r := Register(storage, Imap, address, cleanPassword, now, faults);
  }

  /**
   * A token refresh starts from the stored secret and replaces it when the provider issued another
   * one. An account without a secret is reported and gets none.
   */
  method RotateRefreshToken(storage: Storage, account: Uuid, refreshed: Option<string>, fault: Fault) returns (ok: bool)
    requires storage.Valid()
    modifies storage`secrets, storage`log
    ensures storage.Valid() && old(storage.log) <= storage.log
    ensures ok <==> account in old(storage.secrets)
                    && (refreshed.None? || refreshed.value == old(storage.secrets)[account] || fault == Healthy)
    ensures storage.secrets == if account in old(storage.secrets) && refreshed.Some? && fault != Refused
                               then old(storage.secrets)[account := refreshed.value] else old(storage.secrets)
    ensures ok && refreshed.Some? ==> account in storage.secrets && storage.secrets[account] == refreshed.value
  {
    hide WF;
    UnusedIds(storage);
    if account !in storage.secrets {
      return false;
    }
    ok := true;
    if refreshed.Some? && refreshed.value != storage.secrets[account] {
      ok := storage.SaveAccountSecret(account, refreshed.value, fault);
    } else if refreshed.Some? {
      assert storage.secrets[account := refreshed.value] == storage.secrets;
    }
  }

  // ---------------------------------------------------------------- whole sessions

  datatype Request =
    | Link(provider: Provider, refreshToken: Option<string>, address: Option<string>, faults: LinkFaults)
    | LinkImap(mailbox: string, password: string, accepted: bool, faults: LinkFaults)
    | Unlink(account: Uuid, secretFault: Fault, rowFault: Fault)
    | Wipe(keyring: map<Uuid, Fault>, credentials: Fault, transaction: Fault)
    | Rotate(owner: Uuid, refreshed: Option<string>, secretFault: Fault)

  /** What one request makes of the tables and the vault. */
  ghost predicate Does(q: Request, before: Moment, after: Moment, now: int) {
    var db, vault := before.db, before.vault;
    match q
    case Link(provider, token, address, faults) =>
      if token.None? || address.None? then after == before
      else exists r :: Registered(before, provider, address.value, token.value, now, faults, r, after)
    case LinkImap(mailbox, password, accepted, faults) =>
      if !accepted then after == before
      else exists r :: Registered(before, Imap, mailbox, WithoutSpaces(password), now, faults, r, after)
    case Unlink(account, secretFault, rowFault) =>
      && after.vault == (if secretFault == Refused then vault else vault - {account})
      && after.db == (if secretFault == Healthy && rowFault != Refused then Apply(db, Write.DeleteAccount(account))
                      else db)
    case Wipe(keyring, credentials, transaction) =>
      Wiped(db, vault, keyring, credentials, transaction, after.db, after.vault)
    case Rotate(owner, refreshed, fault) =>
      && after.db == db
      && after.vault == (if owner in vault && refreshed.Some? && fault != Refused
                         then vault[owner := refreshed.value] else vault)
  }

  /** Every request in turn does what it should. */
  ghost predicate Serves(requests: seq<Request>, moments: seq<Moment>, now: int) {
    && |moments| == |requests| + 1
    && forall k | 0 <= k < |requests| :: Does(requests[k], moments[k], moments[k + 1], now)
  }

  lemma ServesOneMore(requests: seq<Request>, moments: seq<Moment>, q: Request, after: Moment, now: int)
    requires Serves(requests, moments, now) && Does(q, moments[|requests|], after, now)
    ensures Serves(requests + [q], moments + [after], now)
  {
    hide Does;
  }

  /** One request. */
  method Serve(storage: Storage, q: Request, now: int)
    requires storage.Valid()
    modifies storage
    ensures storage.Valid() && old(storage.log) <= storage.log
    ensures Does(q, Moment(old(storage.Tables()), old(storage.secrets)), Moment(storage.Tables(), storage.secrets), now)
  {
    hide WF, Apply, Registered, Wiped;
    match q
    case Link(provider, token, address, faults) =>
      var _ := LinkAccount(storage, provider, token, address, now, faults);
    case LinkImap(mailbox, password, accepted, faults) =>
      var _ := LinkImapAccount(storage, mailbox, password, _ => accepted, now, faults);
    case Unlink(account, secretFault, rowFault) =>
      var _ := storage.DeleteAccount(account, secretFault, rowFault);
    case Wipe(keyring, credentials, transaction) =>
      var _ := storage.WipeAllData(keyring, credentials, transaction);
    case Rotate(owner, refreshed, fault) =>
      var _ := RotateRefreshToken(storage, owner, refreshed, fault);
  }

  /**
   * Any requests, one at a time, with any step failing: each does what it should, and at every durable moment
   * on the way each secret has its account row. A stop of the process leaves one of these moments.
   */
  method Session(storage: Storage, requests: seq<Request>, now: int) returns (ghost moments: seq<Moment>)
    requires storage.Valid()
    modifies storage
    ensures storage.Valid() && old(storage.log) <= storage.log
    ensures forall i | 0 <= i < |storage.log| :: storage.log[i].secrets <= storage.log[i].rows
    ensures Serves(requests, moments, now)
    ensures moments[0] == Moment(old(storage.Tables()), old(storage.secrets))
    ensures moments[|requests|] == Moment(storage.Tables(), storage.secrets)
  {
    hide WF, Apply, Does;
    moments := [Moment(storage.Tables(), storage.secrets)];
    for k := 0 to |requests|
      invariant storage.Valid() && old(storage.log) <= storage.log
      invariant Serves(requests[..k], moments, now)
      invariant moments[0] == Moment(old(storage.Tables()), old(storage.secrets))
      invariant moments[k] == Moment(storage.Tables(), storage.secrets)
    {
      Serve(storage, requests[k], now);
      ServesOneMore(requests[..k], moments, requests[k], Moment(storage.Tables(), storage.secrets), now);
      assert requests[..k] + [requests[k]] == requests[..k + 1];
      moments := moments + [Moment(storage.Tables(), storage.secrets)];
    }
    assert requests[..|requests|] == requests;
    assert forall i | 0 <= i < |storage.log| :: storage.log[i] in storage.log;
  }
}
