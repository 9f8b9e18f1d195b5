/** HTTP responses produced by the route handlers (`NextResponse.json`). */
module Http {
  import opened JsValues

  /** A JSON response: its status code and its body. */
  datatype Response = Response(status: int, body: Json)

  /** The `{ error: message }` body every handler uses for failures. */
  function ErrorBody(message: string): (b: Json)
    ensures b.JObj? && "error" in b.fields && b.fields["error"] == JStr(message)
    ensures b.fields.Keys == {"error"}
  {
    JObj(map["error" := JStr(message)])
  }

  /** `Response.ok`: the status is in the 2xx range. */
  predicate IsOk(status: int) {
    200 <= status <= 299
  }

  /** Whether `NextResponse.json(body, { status })` can build its response:
      the Fetch standard's `Response` constructor throws a RangeError for a
      status outside 200-599 and a TypeError for a status that forbids a body
      (204, 205 and 304). */
  predicate CarriesJson(status: int) {
    200 <= status <= 599 && status != 204 && status != 205 && status != 304
  }
}
