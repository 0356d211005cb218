/** The transfer endpoint `POST /transactions`: the core of the time bank.
    The recipient pays the provider `minutes`, and one record of the
    exchange is appended to the transactions table. */
module Transactions {
  import opened Wrappers
  import opened Errors
  import opened Store

  /** A `Transaction` request body. Its `id` is never read. Nothing requires
      `minutes` to be positive or the two users to differ. */
  datatype TxBody = TxBody(
    id: Option<int>,
    providerUserId: int,
    recipientUserId: int,
    minutes: int,
    description: Option<string>)

  /** True when `create_transaction` accepts the body: both users have a row
      and the recipient's balance covers `minutes`. */
  predicate Accepted(s: State, body: TxBody)
  {
    && body.providerUserId in s.users
    && body.recipientUserId in s.users
    && s.users[body.recipientUserId].minutesBalance >= body.minutes
  }

  /** `create_transaction`. Both lookups and the funds check come before any
      write; then the provider's balance is raised by `minutes`, the
      recipient's lowered by `minutes` (two UPDATEs, in that order), and the
      record is inserted under the next AUTOINCREMENT id. A failure returns no
      state: the database the caller holds is the one that stays. */
  function CreateTransaction(s: State, body: TxBody): (r: Result<(State, TxRecord), Error>)
    ensures r.Success? <==> Accepted(s, body)
    ensures body.providerUserId !in s.users || body.recipientUserId !in s.users ==>
              r == Failure(InvalidParticipants)
    ensures (&& body.providerUserId in s.users && body.recipientUserId in s.users
             && s.users[body.recipientUserId].minutesBalance < body.minutes) ==>
              r == Failure(InsufficientMinutes)
    ensures r.Success? ==>
              var (t, rec) := r.value;
              var p, q, m := body.providerUserId, body.recipientUserId, body.minutes;
              // the record: the body's four fields under a fresh id
              && rec == TxRecord(rec.id, p, q, m, body.description)
              && s.nextTxId <= rec.id < t.nextTxId
              && (Valid(s) ==> forall i :: 0 <= i < |s.log| ==> s.log[i].id < rec.id)
              && t.log == s.log + [rec]
              // the balances: recipient pays provider, unless they are one account
              && t.users.Keys == s.users.Keys
              && (p != q ==> t.users[p].minutesBalance == s.users[p].minutesBalance + m)
              && (p != q ==> t.users[q].minutesBalance == s.users[q].minutesBalance - m)
              && (p == q ==> t.users[p] == s.users[p])
              && (forall k :: k in s.users ==> t.users[k].name == s.users[k].name)
              && (forall k :: k in s.users && k != p && k != q ==> t.users[k] == s.users[k])
              // nothing else
              && t.services == s.services
              && t.nextUserId == s.nextUserId
              && t.nextServiceId == s.nextServiceId
    ensures r.Success? && Valid(s) ==> Valid(r.value.0)
  {
    var p, q, m := body.providerUserId, body.recipientUserId, body.minutes;
    if p !in s.users || q !in s.users then
      Failure(InvalidParticipants)
    else if s.users[q].minutesBalance < m then
      Failure(InsufficientMinutes)
    else
      var users := Credit(Credit(s.users, p, m), q, -m);
      var rec := TxRecord(s.nextTxId, p, q, m, body.description);
      Success((s.(users := users, log := s.log + [rec], nextTxId := s.nextTxId + 1), rec))
  }

  /** A transfer neither creates nor destroys minutes: the sum of all balances
      is the same before and after, also when provider and recipient are one
      account and when `minutes` is negative. */
  lemma TransferConservesTotal(s: State, body: TxBody)
    requires CreateTransaction(s, body).Success?
    ensures Total(CreateTransaction(s, body).value.0.users) == Total(s.users)
  {
    var p, q, m := body.providerUserId, body.recipientUserId, body.minutes;
    var mid := Credit(s.users, p, m);
    TotalCredit(s.users, p, m);
    TotalCredit(mid, q, -m);
  }

  /** Transfers are not deduplicated. After one transfer succeeds, repeating
      it succeeds exactly when the recipient can pay again; when it does, the
      log holds two records with the same content and distinct ids, and the
      balance effect is doubled. */
  lemma TransferTwice(s: State, body: TxBody)
    requires CreateTransaction(s, body).Success?
    ensures var (s1, _) := CreateTransaction(s, body).value;
            var p, q, m := body.providerUserId, body.recipientUserId, body.minutes;
            CreateTransaction(s1, body).Success? <==>
              (p == q || s.users[q].minutesBalance - m >= m)
    ensures var (s1, r1) := CreateTransaction(s, body).value;
            var p, q, m := body.providerUserId, body.recipientUserId, body.minutes;
            CreateTransaction(s1, body).Success? ==>
              var (s2, r2) := CreateTransaction(s1, body).value;
              && r1.id != r2.id
              && r1.(id := r2.id) == r2
              && s2.log == s.log + [r1, r2]
              && (p != q ==> s2.users[p].minutesBalance == s.users[p].minutesBalance + 2 * m)
              && (p != q ==> s2.users[q].minutesBalance == s.users[q].minutesBalance - 2 * m)
              && (p == q ==> s2.users[p] == s.users[p])
  {
  }
}
