/**
 * One platform call as the tool sees it: the send either fails, or a reply
 * arrives with a status and a body that either binds to the expected
 * shape or does not.
 */
module Api {
  import opened Wrappers

  const OK: int := 200
  const FORBIDDEN: int := 403

  datatype Call = NamespaceCall | BuildsCall | DeploymentConfigsCall | RolebindingsCall

  datatype Reply<T> = SendFailed | Received(status: int, body: Option<T>)

  datatype ApiError =
    | SendError(call: Call)
    | StatusError(call: Call, status: int, message: string)
    | JsonError(call: Call)

  predicate Succeeded<T>(reply: Reply<T>) {
    reply.Received? && reply.status == OK
  }

  predicate Fetched<T>(reply: Reply<T>) {
    Succeeded(reply) && reply.body.Some?
  }

  /**
   * The send and the status match that follow every call: a failed send is
   * an error, OK passes, FORBIDDEN and every other status are refused with
   * the message the call site chose for that case.
   */
  function Check<T>(call: Call, reply: Reply<T>, forbidden: string, other: string): (e: Option<ApiError>)
    ensures e.None? <==> Succeeded(reply)
    ensures e.Some? ==> e.value.call == call
    ensures reply.SendFailed? ==> e == Some(SendError(call))
    ensures reply.Received? && reply.status == FORBIDDEN ==> e == Some(StatusError(call, FORBIDDEN, forbidden))
    ensures reply.Received? && reply.status != OK && reply.status != FORBIDDEN ==>
              e == Some(StatusError(call, reply.status, other))
  {
    match reply
    case SendFailed => Some(SendError(call))
    case Received(status, _) =>
      if status == OK then None
      else if status == FORBIDDEN then Some(StatusError(call, status, forbidden))
      else Some(StatusError(call, status, other))
  }

  /** `Check` followed by binding the body (`.json()?`). */
  function Receive<T>(call: Call, reply: Reply<T>, forbidden: string, other: string): (r: Result<T, ApiError>)
    ensures r.Ok? <==> Fetched(reply)
    ensures r.Ok? ==> r.value == reply.body.value
    ensures r.Err? ==> r.error.call == call
    ensures Succeeded(reply) && reply.body.None? ==> r == Err(JsonError(call))
    ensures !Succeeded(reply) ==> r == Err(Check(call, reply, forbidden, other).value)
  {
    match Check(call, reply, forbidden, other)
    case Some(e) => Err(e)
    case None =>
      match reply.body
      case None => Err(JsonError(call))
      case Some(body) => Ok(body)
  }
}
