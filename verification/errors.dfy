/** The HTTP errors the ledger endpoints raise. */
module Errors {

  /** Each error the service reports, one constructor per `HTTPException` site. */
  datatype Error =
    | UserNotFound          // get_user on an id with no row
    | InvalidParticipants   // create_transaction with a provider or recipient that has no row
    | InsufficientMinutes   // create_transaction whose recipient cannot pay

  /** The HTTP status code the error is reported with. */
  function Status(e: Error): int
  {
    match e
    case UserNotFound => 404
    case InvalidParticipants => 404
    case InsufficientMinutes => 400
  }

  /** The `detail` text of the error response. */
  function Detail(e: Error): string
  {
    match e
    case UserNotFound => "User not found"
    case InvalidParticipants => "Invalid provider or recipient"
    case InsufficientMinutes => "Recipient does not have enough minutes to pay"
  }
}
