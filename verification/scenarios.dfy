/** Concrete exchanges between two users, worked through the model. */
module Scenarios {
  import opened Wrappers
  import opened Errors
  import opened Store
  import opened Users
  import opened Transactions
  import opened Api

  /** Alice (id 1) with no minutes and Bob (id 2) with 100, created in that
      order into an empty database. */
  function AliceAndBob(): (s: State)
    ensures Valid(s)
    ensures 1 in s.users && s.users[1] == Account("Alice", 0)
    ensures 2 in s.users && s.users[2] == Account("Bob", 100)
  {
    var (s1, _) := CreateUser(Empty(), UserBody(None, "Alice", None));
    var (s2, _) := CreateUser(s1, UserBody(None, "Bob", Some(100)));
    s2
  }

  /** Bob pays Alice 30 minutes: Alice ends with 30, Bob with 70, and the
      log holds the one record of the exchange under id 1. */
  lemma PaymentScenario()
    ensures var r := CreateTransaction(AliceAndBob(), TxBody(None, 1, 2, 30, None));
            && r.Success?
            && r.value.0.users[1] == Account("Alice", 30)
            && r.value.0.users[2] == Account("Bob", 70)
            && r.value.0.log == [TxRecord(1, 1, 2, 30, None)]
  {
  }

  /** Bob cannot pay 200 minutes: a 400 response, balances still 0 and 100. */
  lemma OverdraftScenario()
    ensures var (t, resp) := Handle(AliceAndBob(), PostTransaction(TxBody(None, 1, 2, 200, None)));
            && resp == HttpError(400, "Recipient does not have enough minutes to pay")
            && t.users[1].minutesBalance == 0
            && t.users[2].minutesBalance == 100
            && t.log == []
  {
  }

  /** A transfer naming a provider with no row is a 404. */
  lemma UnknownProviderScenario()
    ensures Handle(AliceAndBob(), PostTransaction(TxBody(None, 99, 2, 10, None))).1
            == HttpError(404, "Invalid provider or recipient")
  {
  }

  /** A negative amount is accepted and moves minutes the other way: Alice
      ends at -50 and Bob at 150. */
  lemma NegativeMinutesScenario()
    ensures var r := CreateTransaction(AliceAndBob(), TxBody(None, 1, 2, -50, None));
            && r.Success?
            && r.value.0.users[1].minutesBalance == -50
            && r.value.0.users[2].minutesBalance == 150
  {
  }

  /** Bob paying himself is accepted while he can cover the amount, leaves
      his balance as it was and is still logged. */
  lemma SelfTransferScenario()
    ensures var r := CreateTransaction(AliceAndBob(), TxBody(None, 2, 2, 40, Some("self")));
            && r.Success?
            && r.value.0.users[2].minutesBalance == 100
            && |r.value.0.log| == 1
    ensures CreateTransaction(AliceAndBob(), TxBody(None, 2, 2, 101, None))
            == Failure(InsufficientMinutes)
  {
  }
}
