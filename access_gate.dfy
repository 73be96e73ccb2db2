/**
 * The optional shared-secret gate that both servers run, as a FastAPI
 * dependency, before any handler: the `X-MCP-API-Key` header against the
 * `MCP_API_KEY` setting. Both servers carry the same text of `get_api_key`.
 */
module AccessGate {
  import opened Wrappers
  import opened Http

  /** Python's `not MCP_API_KEY`: the setting is absent or empty. */
  predicate Unset(key: Option<string>) { key.None? || key.value == "" }

  /**
   * `get_api_key`: `configured` is the server's `MCP_API_KEY`, `header` the
   * request's `X-MCP-API-Key` header if it was sent.
   */
  function GetApiKey(configured: Option<string>, header: Option<string>): (r: Result<Option<string>, HttpException>)
    ensures r.Success? <==> Unset(configured) || header == configured
    ensures r.Success? ==> r.value == if Unset(configured) then None else header
    ensures r.Failure? ==> r.error == HttpException(403, Message("Invalid API key"))
  {
    if configured.None? || configured.value == "" then Success(None)
    else if header.Some? && header.value != "" && header.value == configured.value then Success(header)
    else Failure(HttpException(403, Message("Invalid API key")))
  }

  /** The three cases of the gate: unset allows, an exact match allows, anything else is 403. */
  lemma GateCases(configured: Option<string>, header: Option<string>)
    ensures Unset(configured) ==> GetApiKey(configured, header) == Success(None)
    ensures !Unset(configured) && header == configured ==> GetApiKey(configured, header) == Success(header)
    ensures !Unset(configured) && header != configured ==>
              GetApiKey(configured, header) == Failure(HttpException(403, Message("Invalid API key")))
  {
  }
}
