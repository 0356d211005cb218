/** The user endpoints: `POST /users`, `GET /users/{id}`, `PUT /users/{id}`
    and `DELETE /users/{id}`, each a keyed operation on the users table. */
module Users {
  import opened Wrappers
  import opened Errors
  import opened Store

  /** The `minutes_balance` a request body that omits it is given. */
  const DefaultBalance: int := 0

  /** A `User` request body. The `id` it may carry is never read: creation
      takes the id from the store and an update takes it from the path. */
  datatype UserBody = UserBody(id: Option<int>, name: string, minutesBalance: Option<int>)

  /** A `User` response: a row of the users table together with its key. */
  datatype UserView = UserView(id: int, name: string, minutesBalance: int)

  /** The balance a request body stands for once its default is filled in. */
  function BalanceOf(body: UserBody): int
  {
    body.minutesBalance.GetOr(DefaultBalance)
  }

  /** The row a request body writes. */
  function AccountOf(body: UserBody): Account
  {
    Account(body.name, BalanceOf(body))
  }

  /** `create_user`: inserts a row under the next AUTOINCREMENT id and echoes
      the body with that id. The id is fresh: above every id the table has
      ever handed out, so never one of a live or of a deleted user. */
  function CreateUser(s: State, body: UserBody): (r: (State, UserView))
    ensures Valid(s) ==> r.1.id !in s.users
    ensures Valid(s) ==> forall k :: k in s.users ==> k < r.1.id
    ensures s.nextUserId <= r.1.id < r.0.nextUserId
    ensures r.1.name == body.name && r.1.minutesBalance == BalanceOf(body)
    ensures r.0.users.Keys == s.users.Keys + {r.1.id}
    ensures r.1.id in r.0.users && r.0.users[r.1.id] == AccountOf(body)
    ensures forall k :: k in s.users && k != r.1.id ==> r.0.users[k] == s.users[k]
    ensures r.0.services == s.services && r.0.log == s.log
    ensures r.0.nextServiceId == s.nextServiceId && r.0.nextTxId == s.nextTxId
    ensures Valid(s) ==> Valid(r.0)
  {
    var id := s.nextUserId;
    (s.(users := s.users[id := AccountOf(body)], nextUserId := id + 1),
     UserView(id, body.name, BalanceOf(body)))
  }

  /** `get_user`: the row under `id`, or a 404 when there is none. */
  function GetUser(s: State, id: int): (r: Result<UserView, Error>)
    ensures r.Success? <==> id in s.users
    ensures r.Success? ==>
              && r.value.id == id
              && r.value.name == s.users[id].name
              && r.value.minutesBalance == s.users[id].minutesBalance
    ensures r.Failure? ==> r.error == UserNotFound
  {
    if id in s.users then
      Success(UserView(id, s.users[id].name, s.users[id].minutesBalance))
    else
      Failure(UserNotFound)
  }

  /** `update_user`: overwrites name and balance of the row under `id`. An
      UPDATE that matches no row changes nothing, yet the body is still
      echoed back with the path's id, so a missing user is not reported. */
  function UpdateUser(s: State, id: int, body: UserBody): (r: (State, UserView))
    ensures r.1.id == id && r.1.name == body.name && r.1.minutesBalance == BalanceOf(body)
    ensures id !in s.users ==> r.0 == s
    ensures r.0.users.Keys == s.users.Keys
    ensures id in s.users ==> r.0.users[id] == AccountOf(body)
    ensures forall k :: k in s.users && k != id ==> r.0.users[k] == s.users[k]
    ensures r.0.services == s.services && r.0.log == s.log
    ensures r.0.nextUserId == s.nextUserId
    ensures r.0.nextServiceId == s.nextServiceId && r.0.nextTxId == s.nextTxId
    ensures Valid(s) ==> Valid(r.0)
  {
    var users := if id in s.users then s.users[id := AccountOf(body)] else s.users;
    (s.(users := users), UserView(id, body.name, BalanceOf(body)))
  }

  /** The message `delete_user` answers with, whether or not a row was deleted. */
  const DeletedMessage: string := "User deleted"

  /** `delete_user`: removes the row under `id`, if any. The counter is left
      alone, so the id is never handed out again. */
  function DeleteUser(s: State, id: int): (r: (State, string))
    ensures r.1 == DeletedMessage
    ensures id !in r.0.users
    ensures r.0.users.Keys == s.users.Keys - {id}
    ensures forall k :: k in r.0.users ==> r.0.users[k] == s.users[k]
    ensures id !in s.users ==> r.0 == s
    ensures r.0.services == s.services && r.0.log == s.log
    ensures r.0.nextUserId == s.nextUserId
    ensures r.0.nextServiceId == s.nextServiceId && r.0.nextTxId == s.nextTxId
    ensures Valid(s) ==> Valid(r.0)
  {
    (s.(users := s.users - {id}), DeletedMessage)
  }

  /** Reading a user back after creating it returns exactly what creation
      answered. */
  lemma GetAfterCreate(s: State, body: UserBody)
    ensures var (t, v) := CreateUser(s, body);
            GetUser(t, v.id) == Success(v)
  {
  }

  /** Reading a user back after updating it returns what the update answered,
      provided the user existed; otherwise it is still not found. */
  lemma GetAfterUpdate(s: State, id: int, body: UserBody)
    ensures var (t, v) := UpdateUser(s, id, body);
            GetUser(t, id) == (if id in s.users then Success(v) else Failure(UserNotFound))
  {
  }

  /** A deleted user cannot be read back, and every other user reads as before. */
  lemma GetAfterDelete(s: State, id: int, other: int)
    ensures GetUser(DeleteUser(s, id).0, id) == Failure(UserNotFound)
    ensures other != id ==> GetUser(DeleteUser(s, id).0, other) == GetUser(s, other)
  {
  }

  /** Creating a user after deleting one never hands the deleted id out again. */
  lemma DeletedIdNotReused(s: State, id: int, body: UserBody)
    requires Valid(s)
    requires id in s.users
    ensures CreateUser(DeleteUser(s, id).0, body).1.id != id
  {
  }
}
