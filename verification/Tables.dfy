/** The three tables, and the one connection that holds them. */
module Tables {
  import opened Core
  import opened SettingTypes

  /** The profile column of account-scoped rows. */
  const ACCOUNT_PROFILE := "*"

  /** How a row is keyed within its account. */
  datatype RowKey = RowKey(profile: string, name: Name)

  datatype RowId = RowId(account: string, key: RowKey)

  datatype Row = Row(value: Value, setAt: int, setBy: string)

  datatype Account = Account(revision: nat, createdAt: int, updatedAt: int)

  datatype Action = SetSetting | ResetSetting | ResetNamespace | Update | Import | PurgeRetired

  datatype Event = Event(
    sequence: nat,
    account: string,
    at: int,
    action: Action,
    revision: nat,
    actor: string,
    service: Option<string>,
    namespace: Option<string>,
    key: Option<string>,
    changed: seq<Name>
  )

  /** `events` lists the log table by its primary key, which `AUTOINCREMENT` makes the order of
      insertion; `nextSequence` is what the next insertion gets. */
  datatype Tables = Tables(
    accounts: map<string, Account>,
    settings: map<RowId, Row>,
    events: seq<Event>,
    nextSequence: nat
  )

  const EMPTY := Tables(map[], map[], [], 1)

  /** One account's rows: `SELECT ... WHERE account_id = ?`. */
  function RowsOf(settings: map<RowId, Row>, account: string): (r: map<RowKey, Row>)
    ensures forall k :: k in r <==> RowId(account, k) in settings
    ensures forall k | k in r :: r[k] == settings[RowId(account, k)]
  {
    var keys := set id | id in settings && id.account == account :: id.key;
    assert forall k | RowId(account, k) in settings :: k in keys by {
      forall k | RowId(account, k) in settings
        ensures k in keys
      {
        assert RowId(account, k).key == k;
      }
    }
    map k | k in keys :: settings[RowId(account, k)]
  }

  function RevisionOf(t: Tables, account: string): nat {
    if account in t.accounts then t.accounts[account].revision else 0
  }

  /** The value a row holds, if there is one. A stored null is a value. */
  function Look(rows: map<RowKey, Row>, k: RowKey): Option<Value> {
    if k in rows then Some(rows[k].value) else None
  }

  class Connection {
    var accounts: map<string, Account>
    var settings: map<RowId, Row>
    var events: seq<Event>
    var nextSequence: nat

    function Now(): Tables
      reads this
    {
      Tables(accounts, settings, events, nextSequence)
    }

    constructor ()
      ensures Now() == EMPTY
    {
      accounts, settings, events, nextSequence := map[], map[], [], 1;
    }

    /** `ROLLBACK` to what `BEGIN IMMEDIATE` saw. */
    method Rollback(saved: Tables)
      modifies this
      ensures Now() == saved
    {
      accounts, settings, events, nextSequence := saved.accounts, saved.settings, saved.events, saved.nextSequence;
    }
  }
}
