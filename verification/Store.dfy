/** The settings store: each operation as one transaction over the tables. Every operation is
    given twice, as the function of the tables it commits and as the statements that get
    there. */
module Store {
  import opened Core
  import opened SettingTypes
  import opened Tables
  import opened EventLog

  const MAX_PROFILES_PER_ACCOUNT := 32

  /** One setting to write, or one to remove. */
  datatype Change = Change(name: Name, value: Value, reset: bool, profile: string) {
    function Key(): RowKey { RowKey(profile, name) }

    /** What the change asks the row to hold. */
    function Target(): Option<Value> { if reset then None else Some(value) }
  }

  datatype AccountState = AccountState(found: bool, revision: nat, rows: map<RowKey, Row>)

  datatype Applied = Applied(revision: nat, changed: seq<Name>)

  /** `ProfileLength` is the schema's own check on the profile column refusing an insertion. */
  datatype StoreError = RevisionMismatch | TooManyProfiles | ProfileLength

  /** The arguments of `apply`. */
  datatype Write = Write(
    account: string,
    changes: seq<Change>,
    now: int,
    action: Action,
    actor: string,
    service: Option<string>,
    cap: nat,
    ifRevision: Option<nat>
  )

  // -- The pieces of apply ---------------------------------------------------------------------

  function ReadState(t: Tables, account: string): AccountState {
    AccountState(account in t.accounts, RevisionOf(t, account), RowsOf(t.settings, account))
  }

  /** `INSERT OR IGNORE INTO accounts`. */
  function EnsureAccount(t: Tables, account: string, now: int): Tables {
    if account in t.accounts then t else t.(accounts := t.accounts[account := Account(0, now, now)])
  }

  function Profiles(rows: map<RowKey, Row>): set<string> {
    set k | k in rows && k.profile != ACCOUNT_PROFILE :: k.profile
  }

  function Incoming(changes: seq<Change>): set<string> {
    set c | c in changes && c.profile != ACCOUNT_PROFILE && !c.reset :: c.profile
  }

  /** `_enforce_profile_cap` does not raise. */
  predicate WithinCap(changes: seq<Change>, rows: map<RowKey, Row>) {
    Incoming(changes) == {} || |Profiles(rows) + Incoming(changes)| <= MAX_PROFILES_PER_ACCOUNT
  }

  /** Whether a change differs from the rows read before the loop. */
  predicate Effective(c: Change, snapshot: map<RowKey, Row>) { c.Target() != Look(snapshot, c.Key()) }

  type Written = Result<(map<RowId, Row>, seq<Name>), StoreError>

  function WriteOne(settings: map<RowId, Row>, account: string, c: Change, now: int, actor: string)
    : Result<map<RowId, Row>, StoreError>
  {
    if c.reset then Ok(settings - {RowId(account, c.Key())})
    else if !(1 <= |c.profile| <= 64) then Err(ProfileLength)
    else Ok(settings[RowId(account, c.Key()) := Row(c.value, now, actor)])
  }

  /** The loop of `_apply_changes`: a change is compared with the snapshot, not with what the
      loop has written so far. */
  function WriteAll(settings: map<RowId, Row>, account: string, changes: seq<Change>,
                    snapshot: map<RowKey, Row>, now: int, actor: string): Written
  {
    if changes == [] then Ok((settings, []))
    else
      var n := |changes| - 1;
      var before := WriteAll(settings, account, changes[..n], snapshot, now, actor);
      if before.Err? || !Effective(changes[n], snapshot) then before
      else
        var after := WriteOne(before.value.0, account, changes[n], now, actor);
        if after.Err? then Err(after.error) else Ok((after.value, before.value.1 + [changes[n].name]))
  }

  function Bump(t: Tables, account: string, now: int): Tables
    requires account in t.accounts
  {
    var a := t.accounts[account];
    t.(accounts := t.accounts[account := a.(revision := a.revision + 1, updatedAt := now)])
  }

  function CommonNamespace(changed: seq<Name>): Option<string> {
    if changed != [] && forall i | 0 <= i < |changed| :: changed[i].namespace == changed[0].namespace
    then Some(changed[0].namespace) else None
  }

  function CommonKey(changed: seq<Name>): Option<string> {
    if |changed| == 1 then Some(changed[0].key) else None
  }

  /** The sequence number is the table's to give, so an event is built with none. */
  function EventFor(w: Write, revision: nat, changed: seq<Name>): Event {
    Event(0, w.account, w.now, w.action, revision, w.actor, w.service,
          CommonNamespace(changed), CommonKey(changed), changed)
  }

  // -- The transactions ---------------------------------------------------------------------------

  /** `apply`: the committed tables and what is returned. An error commits nothing. */
  function ApplyTx(t: Tables, w: Write): (Tables, Result<Applied, StoreError>) {
    var ensured := EnsureAccount(t, w.account, w.now);
    var state := ReadState(ensured, w.account);
    if w.ifRevision.Some? && w.ifRevision.value != state.revision then (t, Err(RevisionMismatch))
    else if !WithinCap(w.changes, state.rows) then (t, Err(TooManyProfiles))
    else
      match WriteAll(ensured.settings, w.account, w.changes, state.rows, w.now, w.actor)
      case Err(e) => (t, Err(e))
      case Ok((settings, changed)) =>
        var wrote := ensured.(settings := settings);
        if changed == [] then (wrote, Ok(Applied(state.revision, [])))
        else
          var bumped := Bump(wrote, w.account, w.now);
          var revision := RevisionOf(bumped, w.account);
          (Append(bumped, EventFor(w, revision, changed), w.cap), Ok(Applied(revision, changed)))
  }

  /** `forget`: the settings, the account row and the log. */
  function ForgetTx(t: Tables, account: string): Tables {
    t.(settings := map id | id in t.settings && id.account != account :: t.settings[id],
       events := Erased(t.events, account),
       accounts := t.accounts - {account})
  }

  function Matching(t: Tables, name: Name): set<RowId> { set id | id in t.settings && id.key.name == name }

  function PurgeEvent(account: string, name: Name, now: int, revision: nat): Event {
    Event(0, account, now, PurgeRetired, revision, "sweeper", None, Some(name.namespace), Some(name.key), [name])
  }

  /** One event per row, each at its account's current revision. */
  function PurgeEvents(t: Tables, listing: seq<RowId>, name: Name, now: int, cap: nat): Tables {
    if listing == [] then t
    else
      var n := |listing| - 1;
      var before := PurgeEvents(t, listing[..n], name, now, cap);
      var account := listing[n].account;
      Append(before, PurgeEvent(account, name, now, RevisionOf(before, account)), cap)
  }

  /** `purge_setting`; `listing` is the order in which the query happens to list the rows. */
  function PurgeTx(t: Tables, name: Name, listing: seq<RowId>, now: int, cap: nat): Tables {
    if listing == [] then t
    else PurgeEvents(t.(settings := t.settings - Matching(t, name)), listing, name, now, cap)
  }

  predicate Lists(listing: seq<RowId>, ids: set<RowId>) {
    Distinct(listing) && ids == set id | id in listing
  }

  // -- The statements ------------------------------------------------------------------------------

  class SqlSettingsStore {
    const connection: Connection

    constructor (connection: Connection)
      ensures this.connection == connection
    {
      this.connection := connection;
    }

    method Apply(w: Write) returns (r: Result<Applied, StoreError>)
      modifies connection
      ensures (connection.Now(), r) == ApplyTx(old(connection.Now()), w)
    {
      var begun := connection.Now();
      EnsureAccountRow(w.account, w.now);
      var state := ReadState(connection.Now(), w.account);
      if w.ifRevision.Some? && w.ifRevision.value != state.revision {
        connection.Rollback(begun);
        return Err(RevisionMismatch);
      }
      if !WithinCap(w.changes, state.rows) {
        connection.Rollback(begun);
        return Err(TooManyProfiles);
      }
      var changed := ApplyChanges(w.account, w.changes, state, w.now, w.actor);
      if changed.Err? {
        connection.Rollback(begun);
        return Err(changed.error);
      }
      if changed.value == [] {
        return Ok(Applied(state.revision, []));
      }
      var revision := BumpRevision(w.account, w.now);
      AppendIn(connection, EventFor(w, revision, changed.value), w.cap);
      return Ok(Applied(revision, changed.value));
    }

    /** Afterwards the account has a row, and no revision and no row that was there has moved. */
    method EnsureAccountRow(account: string, now: int)
      modifies connection`accounts
      ensures connection.Now() == EnsureAccount(old(connection.Now()), account, now)
      ensures connection.accounts.Keys == old(connection.accounts).Keys + {account}
      ensures forall a :: RevisionOf(connection.Now(), a) == RevisionOf(old(connection.Now()), a)
      ensures forall a | a in old(connection.accounts) :: connection.accounts[a] == old(connection.accounts)[a]
    {
      if account !in connection.accounts {
        connection.accounts := connection.accounts[account := Account(0, now, now)];
      }
    }

    /** `_apply_changes`: writes every change that is one, and reports which those were. */
    method ApplyChanges(account: string, changes: seq<Change>, state: AccountState, now: int, actor: string)
      returns (r: Result<seq<Name>, StoreError>)
      modifies connection`settings
      ensures var w := WriteAll(old(connection.settings), account, changes, state.rows, now, actor);
        if w.Err? then r == Err(w.error)
        else r == Ok(w.value.1) && connection.settings == w.value.0
    {
      var changed: seq<Name> := [];
      for i := 0 to |changes|
        invariant WriteAll(old(connection.settings), account, changes[..i], state.rows, now, actor)
               == Ok((connection.settings, changed))
      {
        assert changes[..i + 1][..i] == changes[..i];
        var change := changes[i];
        var id := RowId(account, change.Key());
        if change.reset {
          if change.Key() !in state.rows {
            continue;
          }
          connection.settings := connection.settings - {id};
          changed := changed + [change.name];
          continue;
        }
        if change.Key() in state.rows && state.rows[change.Key()].value == change.value {
          continue;
        }
        if !(1 <= |change.profile| <= 64) {
          FirstViolationDecides(old(connection.settings), account, changes, i + 1, state.rows, now, actor);
          return Err(ProfileLength);
        }
        connection.settings := connection.settings[id := Row(change.value, now, actor)];
        changed := changed + [change.name];
      }
      assert changes[..|changes|] == changes;
      return Ok(changed);
    }

    /** The revision returned is the one stored, one above the one before; no other moves. */
    method BumpRevision(account: string, now: int) returns (revision: nat)
      requires account in connection.accounts
      modifies connection`accounts
      ensures connection.Now() == Bump(old(connection.Now()), account, now)
      ensures revision == RevisionOf(connection.Now(), account) == RevisionOf(old(connection.Now()), account) + 1
      ensures forall a | a != account :: RevisionOf(connection.Now(), a) == RevisionOf(old(connection.Now()), a)
    {
      var row := connection.accounts[account];
      connection.accounts := connection.accounts[account := row.(revision := row.revision + 1, updatedAt := now)];
      return row.revision + 1;
    }

    /** Returns how many settings rows went. */
    method Forget(account: string) returns (removed: nat)
      modifies connection
      ensures connection.Now() == ForgetTx(old(connection.Now()), account)
      ensures removed == |set id | id in old(connection.settings) && id.account == account|
    {
      removed := |set id | id in connection.settings && id.account == account|;
      connection.settings := map id | id in connection.settings && id.account != account :: connection.settings[id];
      var _ := DeleteForAccountIn(connection, account);
      connection.accounts := connection.accounts - {account};
    }

    /** Destroys every account's rows for one key; `affected` is the query's answer. */
    method PurgeSetting(name: Name, affected: seq<RowId>, now: int, cap: nat) returns (removed: nat)
      requires Lists(affected, Matching(connection.Now(), name))
      modifies connection
      ensures connection.Now() == PurgeTx(old(connection.Now()), name, affected, now, cap)
      ensures removed == |Matching(old(connection.Now()), name)|
    {
      if affected == [] {
        return 0;
      }
      ghost var started := connection.Now();
      var gone := Matching(connection.Now(), name);
      removed := |gone|;
      connection.settings := connection.settings - gone;
      ghost var emptied := connection.Now();
      for i := 0 to |affected|
        invariant connection.Now() == PurgeEvents(emptied, affected[..i], name, now, cap)
      {
        assert affected[..i + 1][..i] == affected[..i];
        var account := affected[i].account;
        AppendIn(connection, PurgeEvent(account, name, now, RevisionOf(connection.Now(), account)), cap);
      }
      assert affected[..|affected|] == affected;
    }
  }

  lemma {:induction false} FirstViolationDecides(settings: map<RowId, Row>, account: string, changes: seq<Change>,
                                                 k: nat,
                                                 snapshot: map<RowKey, Row>, now: int, actor: string)
    requires k <= |changes|
    ensures var r := WriteAll(settings, account, changes[..k], snapshot, now, actor);
      r.Err? ==> WriteAll(settings, account, changes, snapshot, now, actor) == r
    decreases |changes| - k
  {
    if k == |changes| {
      assert changes[..k] == changes;
    } else {
      assert changes[..k + 1][..k] == changes[..k];
      FirstViolationDecides(settings, account, changes, k + 1, snapshot, now, actor);
    }
  }
}
