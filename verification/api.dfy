/** The service as a whole: one request against the database, and a run of
    requests handled one after another. */
module Api {
  import opened Wrappers
  import opened Errors
  import opened Store
  import opened Users
  import opened Services
  import opened Transactions

  /** The requests of the endpoints the ledger serves. */
  datatype Request =
    | PostUser(userBody: UserBody)
    | GetUserById(userId: int)
    | PutUser(putId: int, putBody: UserBody)
    | DeleteUserById(deleteId: int)
    | PostService(serviceBody: ServiceBody)
    | PostTransaction(txBody: TxBody)

  /** What a request is answered with: a 200 body, or an HTTP error. */
  datatype Response =
    | UserOk(user: UserView)
    | DeleteOk(message: string)
    | ServiceOk(service: ServiceView)
    | TxOk(record: TxRecord)
    | HttpError(status: int, detail: string)

  function ErrorResponse(e: Error): Response
  {
    HttpError(Status(e), Detail(e))
  }

  /** Handles one request and answers as the endpoint does. Only a read of a
      missing user (404) and a rejected transfer (404 for a missing user, 400
      for an uncovered amount) are errors, and an error leaves the database
      as it was. No
      request rewrites the transaction log; a successful transfer appends the
      record it answers with, and nothing else touches the log. */
  function Handle(s: State, req: Request): (r: (State, Response))
    ensures r.1.HttpError? <==>
              || (req.GetUserById? && req.userId !in s.users)
              || (req.PostTransaction? && !Accepted(s, req.txBody))
    ensures r.1.HttpError? ==> r.0 == s
    ensures r.1.TxOk? ==> r.0.log == s.log + [r.1.record]
    ensures !r.1.TxOk? ==> r.0.log == s.log
    ensures s.nextUserId <= r.0.nextUserId
    ensures Valid(s) ==> Valid(r.0)
    // the answer each endpoint gives
    ensures req.PostUser? ==>
              && r.1.UserOk?
              && (r.0, r.1.user) == CreateUser(s, req.userBody)
              && r.1.user.name == req.userBody.name
              && r.1.user.minutesBalance == BalanceOf(req.userBody)
    ensures req.GetUserById? && req.userId in s.users ==>
              r == (s, UserOk(UserView(req.userId, s.users[req.userId].name,
                                       s.users[req.userId].minutesBalance)))
    ensures req.GetUserById? && req.userId !in s.users ==>
              r.1 == HttpError(404, "User not found")
    ensures req.PutUser? ==>
              && r.1 == UserOk(UserView(req.putId, req.putBody.name, BalanceOf(req.putBody)))
              && r.0 == UpdateUser(s, req.putId, req.putBody).0
    ensures req.DeleteUserById? ==>
              && r.1 == DeleteOk("User deleted")
              && r.0 == DeleteUser(s, req.deleteId).0
              && r.0.users == s.users - {req.deleteId}
    ensures req.PostService? ==>
              && r.1.ServiceOk?
              && (r.0, r.1.service) == CreateService(s, req.serviceBody)
              && r.1.service.service == ServiceOf(req.serviceBody)
    ensures (&& req.PostTransaction?
             && (req.txBody.providerUserId !in s.users || req.txBody.recipientUserId !in s.users)) ==>
              r.1 == HttpError(404, "Invalid provider or recipient")
    ensures (&& req.PostTransaction?
             && req.txBody.providerUserId in s.users && req.txBody.recipientUserId in s.users
             && s.users[req.txBody.recipientUserId].minutesBalance < req.txBody.minutes) ==>
              r.1 == HttpError(400, "Recipient does not have enough minutes to pay")
    ensures req.PostTransaction? && Accepted(s, req.txBody) ==>
              && r.1.TxOk?
              && (r.0, r.1.record) == CreateTransaction(s, req.txBody).value
              && r.1.record.providerUserId == req.txBody.providerUserId
              && r.1.record.recipientUserId == req.txBody.recipientUserId
              && r.1.record.minutes == req.txBody.minutes
              && r.1.record.description == req.txBody.description
  {
    match req
    case PostUser(body) =>
      var (t, v) := CreateUser(s, body);
      (t, UserOk(v))
    case GetUserById(id) =>
      (match GetUser(s, id)
       case Success(v) => (s, UserOk(v))
       case Failure(e) => (s, ErrorResponse(e)))
    case PutUser(id, body) =>
      var (t, v) := UpdateUser(s, id, body);
      (t, UserOk(v))
    case DeleteUserById(id) =>
      var (t, msg) := DeleteUser(s, id);
      (t, DeleteOk(msg))
    case PostService(body) =>
      var (t, v) := CreateService(s, body);
      (t, ServiceOk(v))
    case PostTransaction(body) =>
      match CreateTransaction(s, body)
      case Success((t, rec)) =>
        (t, TxOk(rec))
      case Failure(e) => (s, ErrorResponse(e))
  }

  /** Handles the requests in order, each against the database the previous
      one left. One response per request; the log only ever grows; validity
      is kept throughout. */
  function Run(s: State, reqs: seq<Request>): (r: (State, seq<Response>))
    ensures |r.1| == |reqs|
    ensures s.log <= r.0.log
    ensures s.nextUserId <= r.0.nextUserId
    ensures Valid(s) ==> Valid(r.0)
    decreases |reqs|
  {
    if reqs == [] then
      (s, [])
    else
      var (s1, resp) := Handle(s, reqs[0]);
      var (t, resps) := Run(s1, reqs[1..]);
      (t, [resp] + resps)
  }

  /** The transfer records among a sequence of responses, in order. */
  function Records(resps: seq<Response>): seq<TxRecord>
  {
    if resps == [] then []
    else if resps[0].TxOk? then [resps[0].record] + Records(resps[1..])
    else Records(resps[1..])
  }

  /** After any run, the log is the log it started from followed by exactly
      the records of the transfers the run accepted, in the order they were
      answered: records are never rewritten, dropped or added silently. */
  lemma {:induction false} RunLogIsAcceptedTransfers(s: State, reqs: seq<Request>)
    ensures Run(s, reqs).0.log == s.log + Records(Run(s, reqs).1)
    decreases |reqs|
  {
    if reqs != [] {
      var (s1, resp) := Handle(s, reqs[0]);
      var (t, resps) := Run(s1, reqs[1..]);
      RunLogIsAcceptedTransfers(s1, reqs[1..]);
      assert Run(s, reqs).1 == [resp] + resps;
      assert ([resp] + resps)[1..] == resps;
    }
  }

  /** Every id a run hands to a created user lies between the counters before
      and after the run, and the ids of users created later in the run are
      larger: AUTOINCREMENT never hands out the same user id twice. */
  lemma {:induction false} CreatedUserIdsIncrease(s: State, reqs: seq<Request>)
    ensures var (t, resps) := Run(s, reqs);
            forall i :: 0 <= i < |reqs| && reqs[i].PostUser? ==>
              resps[i].UserOk? && s.nextUserId <= resps[i].user.id < t.nextUserId
    ensures var (t, resps) := Run(s, reqs);
            forall i, j :: 0 <= i < j < |reqs| && reqs[i].PostUser? && reqs[j].PostUser? ==>
              resps[i].user.id < resps[j].user.id
    decreases |reqs|
  {
    if reqs != [] {
      var (s1, resp) := Handle(s, reqs[0]);
      var (t, resps) := Run(s1, reqs[1..]);
      CreatedUserIdsIncrease(s1, reqs[1..]);
      assert Run(s, reqs).1 == [resp] + resps;
      forall i | 1 <= i < |reqs| && reqs[i].PostUser?
        ensures resps[i - 1].UserOk? && s1.nextUserId <= resps[i - 1].user.id < t.nextUserId
      {
        assert reqs[1..][i - 1] == reqs[i];
      }
      if reqs[0].PostUser? {
        assert resp.user.id < s1.nextUserId;
      }
    }
  }

  /** Every database a run of requests reaches from the freshly created
      schema satisfies the AUTOINCREMENT invariant. */
  lemma ReachableIsValid(reqs: seq<Request>)
    ensures Valid(Run(Empty(), reqs).0)
  {
    EmptyIsValid();
  }

  /** A run made of transfers only leaves the sum of all balances where it
      was, whichever of them are accepted or rejected. */
  lemma {:induction false} TransfersConserveTotal(s: State, reqs: seq<Request>)
    requires forall i :: 0 <= i < |reqs| ==> reqs[i].PostTransaction?
    ensures Total(Run(s, reqs).0.users) == Total(s.users)
    decreases |reqs|
  {
    if reqs != [] {
      var s1 := Handle(s, reqs[0]).0;
      if CreateTransaction(s, reqs[0].txBody).Success? {
        TransferConservesTotal(s, reqs[0].txBody);
      }
      assert forall i :: 0 <= i < |reqs[1..]| ==> reqs[1..][i] == reqs[i + 1];
      TransfersConserveTotal(s1, reqs[1..]);
    }
  }
}
