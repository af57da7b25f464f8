/** The outcome of an outward HTTP call, as the pipeline's callers see it.
    The call itself (pooling, retries with backoff, TLS) is not modelled:
    the reply the transport ends up with is an input. */
module Transport {
  import opened Basics
  import opened Json

  /** The response body, as `response.json()` reads it. */
  datatype Body = Parsed(json: Json) | Unparsable(error: string)

  /** What `session.post(...)` ends with once the transport has given up
      retrying: an exception of one of the three kinds it logs apart, or
      the final response. */
  datatype Reply =
    | Timeout
    | ConnectionError
    | RequestError(error: string)
    | Answered(status: int, body: Body)

  datatype Response = Response(status: int, body: Body)

  /** `raise_for_status` raises for the client and server error classes. */
  predicate IsHttpError(status: int)
  {
    400 <= status < 600
  }

  /** `fazer_requisicao`: the response when there is a session and the call
      ended with a status `raise_for_status` accepts; `None` otherwise. */
  function Request(session: bool, reply: Reply): (r: Option<Response>)
    ensures r.Some? <==> session && reply.Answered? && !IsHttpError(reply.status)
    ensures r.Some? ==> r.value.status == reply.status && r.value.body == reply.body
  {
    if !session then None
    else match reply
      case Answered(status, body) => if IsHttpError(status) then None else Some(Response(status, body))
      case _ => None
  }

  /** The object `alterar_campo_card` gives back. */
  function NoResponse(): Json
  {
    JObj(map["error" := JStr("No response received")])
  }

  /** `alterar_campo_card`'s result once its request has been made: the
      decoded reply, or an `{"error": ...}` object without a response or when
      the body does not decode. */
  function UpdateResult(response: Option<Response>): (r: Json)
    ensures response.None? ==> r == NoResponse()
    ensures response.Some? && response.value.body.Parsed? ==> r == response.value.body.json
    ensures response.Some? && response.value.body.Unparsable? ==>
      r.JObj? && r.members.Keys == {"error"} && r.members["error"] == JStr(response.value.body.error)
  {
    match response
    case None => NoResponse()
    case Some(resp) =>
      match resp.body
      case Parsed(j) => j
      case Unparsable(e) => JObj(map["error" := JStr(e)])
  }

  /** A failed call never reaches the caller as a response, whichever way it failed. */
  lemma FailuresCollapse(session: bool, error: string)
    ensures Request(session, Timeout) == Request(session, ConnectionError)
                                     == Request(session, RequestError(error)) == None
  {
  }
}
