# Time bank ledger, modelled in Dafny

The time bank is a small web service. Users hold a balance of minutes and
advertise services. They pay one another in minutes through recorded
transactions. The service keeps three sqlite tables (`users`, `services`,
`transactions`), each keyed by an AUTOINCREMENT id.

This project models that service as a pure state machine:

- `Store` (store.dfy) is the database as an immutable value. It holds a map
  from user id to `Account` (name, minute balance) and a map from service
  id to `Service`. The transactions table is an append-only sequence of
  `TxRecord`. Each table has an AUTOINCREMENT counter. `Valid` is what
  AUTOINCREMENT guarantees of reachable states. `Credit` is the SQL
  statement `UPDATE users SET minutes_balance = minutes_balance + ? WHERE id=?`.
  `Total` is the sum of all balances.
- `Users` (users.dfy) holds `create_user`, `get_user`, `update_user` and
  `delete_user`.
- `Services` (services.dfy) holds `create_service`.
- `Transactions` (transactions.dfy) holds `create_transaction`: the
  recipient pays the provider, and one record is appended.
- `Api` (api.dfy) holds one request (`Handle`) and a run of requests
  (`Run`), with the lemmas that range over whole runs.
- `Scenarios` (scenarios.dfy) holds concrete exchanges between two users.
- `Errors` and `Wrappers` hold the HTTP errors and the `Option`/`Result`
  types.

Each endpoint is a function from the database and the request body to the
new database and the response. Errors are a `Result` failure. A failing
endpoint returns no database, so the caller keeps the one it had. This
matches the source, where both checks of `create_transaction` come before
its first write.

The model keeps the source's permissive behaviour:

- `minutes` may be zero or negative. A negative amount moves minutes from
  the provider to the recipient.
- The provider and the recipient may be the same user. The two updates
  then cancel out, but the funds check still applies.
- The provider's balance has no floor.
- `update_user` on a missing id changes nothing and still answers 200 with
  the body. A PUT that omits `minutes_balance` resets the balance to 0,
  because the request model's default applies.
- The `id` field of every request body is ignored.
- A service may name a provider id that has no user row.
- Deleting a user leaves its transactions and services in place.

Two further facts about the code shape the model:

- `update_user` overwrites the balance, so balances also change outside
  transfers.
- The transfer has no isolation beyond one sqlite connection per request.
  The model is sequential, so atomicity means that an error leaves the
  state unchanged.

## Model

| member | source | states |
|---|---|---|
| Store.EmptyIsValid | backend/main.py:44-67 | the freshly created schema (empty tables, counters at 1) satisfies the AUTOINCREMENT invariant |
| Store.Credit | backend/main.py:153-154 | a balance UPDATE changes only the balance of the row it matches, by the delta, keeps its name, keeps the key set, and changes nothing when no row matches |
| Store.TotalCredit | backend/main.py:153-154 | a balance UPDATE changes the sum of all balances by exactly its delta when it matches a row, and not at all otherwise |
| Users.CreateUser | backend/main.py:74-82 | the new user is stored with the body's name and balance (default 0) under an id that is not in use and is at least the counter, so above every id ever issued; the response echoes that row; other users, services, log and other counters are unchanged; validity is kept |
| Users.GetUser | backend/main.py:91-98 | succeeds exactly when the id has a row, returning that row with its id; otherwise a user-not-found error |
| Users.UpdateUser | backend/main.py:100-108 | always answers with the path id and the body's name and balance; overwrites that row only if it exists; a missing id leaves the whole database unchanged; other rows untouched |
| Users.DeleteUser | backend/main.py:110-117 | removes exactly the given id (if present), keeps every other row, always answers with the same message, and leaves the id counter alone |
| Users.GetAfterCreate | backend/main.py:74-98 | reading a created user back returns exactly what creation answered |
| Users.GetAfterUpdate | backend/main.py:91-108 | reading back after an update returns the update's answer if the user existed, and not-found otherwise |
| Users.GetAfterDelete | backend/main.py:91-117 | a deleted user reads as not found; every other user reads as before the delete |
| Users.DeletedIdNotReused | backend/main.py:48 | after deleting a user, the next created user never gets the deleted id |
| Services.CreateService | backend/main.py:120-129 | the service is stored under a fresh id with the body's title, description, provider and duration (default 60), with no check that the provider exists; nothing else changes; validity is kept |
| Transactions.CreateTransaction | backend/main.py:139-162 | succeeds exactly when both users exist and the recipient's balance covers the amount; a missing user gives the 404 error and an uncovered amount the 400 error; on success the provider gains and the recipient loses the amount (both unchanged when they are one user), every other account and all names stay, and exactly one record carrying the body's four fields is appended under an id above every earlier one; validity is kept |
| Transactions.TransferConservesTotal | backend/main.py:153-154 | a successful transfer leaves the sum of all balances unchanged, including self-transfers and negative amounts |
| Transactions.TransferTwice | backend/main.py:149-160 | repeating a successful transfer succeeds exactly when the recipient can pay again; then the log gains two records with equal content and distinct ids, and the balance effect is doubled |
| Api.Handle | backend/main.py:74-162 | each request gets its endpoint's answer: a created, read or updated user (a read returns the stored row, an update echoes the path id and body), the "User deleted" message with only that id removed, the created service, or the appended transfer record carrying the body's fields; errors are exactly a read of a missing user (404 "User not found"), a transfer naming a missing user (404 "Invalid provider or recipient") and an uncovered transfer (400 "Recipient does not have enough minutes to pay"), and leave the database unchanged; only an accepted transfer touches the log; the user counter never decreases; validity is kept |
| Api.Run | backend/main.py:74-162 | a run answers each request once; the log of the start state stays a prefix of the final log; the user counter never decreases; a valid start state gives a valid final state |
| Api.ReachableIsValid | backend/main.py:44-162 | every database reached from the freshly created schema by any run of requests satisfies the AUTOINCREMENT invariant |
| Api.RunLogIsAcceptedTransfers | backend/main.py:156-160 | after any run, the log is the initial log followed by exactly the records of the accepted transfers, in order |
| Api.CreatedUserIdsIncrease | backend/main.py:48-82 | every user id created in a run lies between the counters before and after it, and later creations get strictly larger ids, so no user id is issued twice |
| Api.TransfersConserveTotal | backend/main.py:139-162 | a run of transfer requests, whether accepted or rejected, leaves the sum of all balances unchanged |
| Scenarios.AliceAndBob | backend/main.py:74-82 | creating Alice (default balance) and then Bob (100) in an empty database gives ids 1 and 2 holding those rows |
| Scenarios.PaymentScenario | backend/main.py:149-160 | Bob paying Alice 30 minutes leaves Alice at 30 and Bob at 70, with one record under id 1 |
| Scenarios.OverdraftScenario | backend/main.py:149-150 | Bob paying 200 minutes gets the 400 response and both balances and the log stay as they were |
| Scenarios.UnknownProviderScenario | backend/main.py:144-147 | a transfer naming a provider with no row gets the 404 response |
| Scenarios.NegativeMinutesScenario | backend/main.py:149-154 | a negative amount is accepted and moves minutes from provider to recipient |
| Scenarios.SelfTransferScenario | backend/main.py:149-154 | a self-transfer the user can cover is accepted, logged and leaves the balance as it was; one the user cannot cover is refused |

## Left out

- `list_users` and `list_services` (backend/main.py:84-89, 131-136): they return the table contents and change nothing.
- `get_db`, `init_db` and the startup hook (backend/main.py:18-21, 44-71): connection handling and schema creation are I/O. The model starts from `Store.Empty`, the state right after the schema exists.
- FastAPI routing, the CORS middleware and pydantic parsing (backend/main.py:1-15, 24-41). Request bodies are Dafny datatypes. The only part of parsing kept is the field defaults (`minutes_balance` 0, `duration_minutes` 60). Malformed bodies (HTTP 422) are not modelled.
- Concurrency and transaction isolation: the model handles one request at a time.
- Storage failures (an sqlite error, HTTP 500) are not modelled. In the source, a failure between the two UPDATEs and the commit is rolled back when the connection closes uncommitted.
- Integer width: ids and balances are unbounded integers. SQLite's 64-bit integer limit is not modelled. Overflow in the UPDATE arithmetic and rowid exhaustion in AUTOINCREMENT are out of scope.
