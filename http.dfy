/** `sendJson`: every response is a status, the fixed header set and a JSON payload. */
module Http {
  import opened JsValues

  /** The headers `sendJson` writes on every response: JSON content and open CORS. */
  const JsonHeaders: seq<(string, string)> := [
    ("Content-Type", "application/json; charset=utf-8"),
    ("Access-Control-Allow-Origin", "*"),
    ("Access-Control-Allow-Headers", "Content-Type"),
    ("Access-Control-Allow-Methods", "POST,OPTIONS")
  ]

  datatype Response = Response(status: int, headers: seq<(string, string)>, payload: Json)

  /**
   * The envelope of every answer a handler writes: `ok` says whether the
   * status is 200, and a refusal carries a textual `message`.
   */
  predicate Enveloped(r: Response)
  {
    && r.payload.JObj?
    && "ok" in r.payload.fields
    && r.payload.fields["ok"] == JBool(r.status == 200)
    && (r.status != 200 ==> "message" in r.payload.fields && r.payload.fields["message"].JStr?)
  }

  /** `sendJson(res, status, payload)`: the status and payload as given, under the fixed headers. */
  function SendJson(status: int, payload: Json): (r: Response)
    ensures r.status == status && r.payload == payload
    ensures r.headers == JsonHeaders
  {
    Response(status, JsonHeaders, payload)
  }

  /** `{ ok: false, message }`: a refusal in the envelope, with nothing else in it. */
  function Failure(status: int, message: string): (r: Response)
    requires status != 200
    ensures Enveloped(r) && r.status == status && r.headers == JsonHeaders
    ensures r.payload.fields.Keys == {"ok", "message"} && r.payload.fields["message"] == JStr(message)
  {
    SendJson(status, JObj(map["ok" := JBool(false), "message" := JStr(message)]))
  }
}
