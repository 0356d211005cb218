/** The sqlite database behind the service, as an immutable value: the
    `users`, `services` and `transactions` tables and the AUTOINCREMENT
    counter of each. */
module Store {
  import opened Wrappers

  /** A row of `users` without its key: display name and minute balance.
      The balance may be any integer; nothing keeps it non-negative. */
  datatype Account = Account(name: string, minutesBalance: int)

  /** A row of `services` without its key. */
  datatype Service = Service(
    title: string,
    description: Option<string>,
    providerUserId: int,
    durationMinutes: int)

  /** A row of `transactions`, with the id the store assigned to it. */
  datatype TxRecord = TxRecord(
    id: int,
    providerUserId: int,
    recipientUserId: int,
    minutes: int,
    description: Option<string>)

  /** The whole database. `log` holds the transactions table in insertion
      order; each `next…Id` is the id AUTOINCREMENT hands out next. */
  datatype State = State(
    users: map<int, Account>,
    services: map<int, Service>,
    log: seq<TxRecord>,
    nextUserId: int,
    nextServiceId: int,
    nextTxId: int)

  /** The first id AUTOINCREMENT assigns in an empty table. */
  const FirstRowId: int := 1

  /** The database right after the schema is created. */
  function Empty(): State
  {
    State(map[], map[], [], FirstRowId, FirstRowId, FirstRowId)
  }

  /** What AUTOINCREMENT guarantees of every reachable database: every key
      in use lies below its table's counter, and transaction ids grow
      along the log. */
  ghost predicate Valid(s: State)
  {
    && FirstRowId <= s.nextUserId
    && FirstRowId <= s.nextServiceId
    && FirstRowId <= s.nextTxId
    && (forall id :: id in s.users ==> FirstRowId <= id < s.nextUserId)
    && (forall id :: id in s.services ==> FirstRowId <= id < s.nextServiceId)
    && (forall i :: 0 <= i < |s.log| ==> FirstRowId <= s.log[i].id < s.nextTxId)
    && (forall i, j :: 0 <= i < j < |s.log| ==> s.log[i].id < s.log[j].id)
  }

  lemma EmptyIsValid()
    ensures Valid(Empty())
  {
  }

  /** `UPDATE users SET minutes_balance = minutes_balance + delta WHERE id = id`:
      a statement whose WHERE clause matches no row changes nothing. */
  function Credit(users: map<int, Account>, id: int, delta: int): (r: map<int, Account>)
    ensures r.Keys == users.Keys
    ensures id in users ==> r[id].name == users[id].name
    ensures id in users ==> r[id].minutesBalance == users[id].minutesBalance + delta
    ensures forall k :: k in users && k != id ==> r[k] == users[k]
  {
    if id in users then
      users[id := users[id].(minutesBalance := users[id].minutesBalance + delta)]
    else
      users
  }

  /** The sum of the balances of all accounts. */
  ghost function Total(users: map<int, Account>): int
    decreases |users|
  {
    if forall k :: k !in users then 0
    else
      var k :| k in users;
      users[k].minutesBalance + Total(users - {k})
  }

  /** `Total` may peel off any account, not only the one it picks itself. */
  lemma {:induction false} TotalRemove(users: map<int, Account>, k: int)
    requires k in users
    ensures Total(users) == users[k].minutesBalance + Total(users - {k})
    decreases |users|
  {
    var j :| j in users && Total(users) == users[j].minutesBalance + Total(users - {j});
    if j != k {
      TotalRemove(users - {j}, k);
      TotalRemove(users - {k}, j);
      assert users - {j} - {k} == users - {k} - {j};
    }
  }

  /** Replacing one account changes the total by exactly the change in that
      account's balance. */
  lemma TotalUpdate(users: map<int, Account>, k: int, a: Account)
    requires k in users
    ensures Total(users[k := a]) == Total(users) - users[k].minutesBalance + a.minutesBalance
  {
    TotalRemove(users, k);
    TotalRemove(users[k := a], k);
    assert users[k := a] - {k} == users - {k};
  }

  /** A balance update adds its delta to the total when it matches a row, and
      nothing when it does not. */
  lemma TotalCredit(users: map<int, Account>, id: int, delta: int)
    ensures Total(Credit(users, id, delta)) == Total(users) + (if id in users then delta else 0)
  {
    if id in users {
      TotalUpdate(users, id, users[id].(minutesBalance := users[id].minutesBalance + delta));
    }
  }
}
