/** The parts of a Pages Function response the gate and the registrar produce. */
module Http {
  import opened Wrappers

  /** A response: its status, its body (`None` for `new Response(null, …)`), and the
      `Set-Cookie` header values it carries, in the order they were appended. */
  datatype Response = Response(status: int, body: Option<string>, setCookies: seq<string>)
}
