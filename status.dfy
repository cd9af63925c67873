/**
 * The emission lifecycle states (NfseEmissionStatus). The enum's keys and
 * values are the same upper-case names.
 */
module NfseStatus {
  import opened Wrappers

  datatype Status = PENDING | PROCESSING | AUTHORIZED | REJECTED | CANCELED | ERROR

  function Name(s: Status): string {
    match s
    case PENDING => "PENDING"
    case PROCESSING => "PROCESSING"
    case AUTHORIZED => "AUTHORIZED"
    case REJECTED => "REJECTED"
    case CANCELED => "CANCELED"
    case ERROR => "ERROR"
  }

  /** The member a string names, if any (`Object.values(NfseEmissionStatus).includes(n)`). */
  function FromName(n: string): Option<Status> {
    if n == "PENDING" then Some(PENDING)
    else if n == "PROCESSING" then Some(PROCESSING)
    else if n == "AUTHORIZED" then Some(AUTHORIZED)
    else if n == "REJECTED" then Some(REJECTED)
    else if n == "CANCELED" then Some(CANCELED)
    else if n == "ERROR" then Some(ERROR)
    else None
  }

  /** FromName and Name are inverse: a string names a member exactly when it is that member's name. */
  lemma NameRoundTrip(n: string, s: Status)
    ensures FromName(n) == Some(s) <==> n == Name(s)
  {
  }
}
