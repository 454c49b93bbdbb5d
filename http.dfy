/**
 * What the views hand back to Flask, the immutable application
 * configuration they read, and the inbound request.
 */
module Http {
  import opened PyJson
  import opened Codecs

  /**
   * The six settings the core reads from `current_app.config`. Each comes
   * from `os.getenv`, so each may be unset (None).
   */
  datatype Config = Config(
    accessToken: Option<string>,
    appSecret: Option<string>,
    verifyToken: Option<string>,
    phoneNumberId: Option<string>,
    version: Option<string>,
    recipientWaid: Option<string>)

  /** A view's body: a plain string (the handshake challenge, possibly None) or `jsonify(...)`. */
  datatype Body = Text(text: Option<string>) | JsonBody(json: Json)

  /** The `(body, status)` pair a view returns. */
  datatype Response = Response(body: Body, status: int)

  /** `{"status": "ok"}` */
  function OkJson(): Json {
    JObj(map["status" := JStr("ok")])
  }

  /** `{"status": "error", "message": message}` */
  function ErrorJson(message: string): Json {
    JObj(map["status" := JStr("error"), "message" := JStr(message)])
  }

  function ErrorResponse(message: string, status: int): (r: Response)
    ensures r.status == status && r.body.JsonBody?
  {
    Response(JsonBody(ErrorJson(message)), status)
  }

  /** An outbound `requests.post(url, data=..., headers=..., timeout=...)`. */
  datatype OutboundPost = OutboundPost(url: string, headers: map<string, string>, data: Json, timeout: int)

  /**
   * What a view did: the response it returned or the exception it raised,
   * and the outbound WhatsApp messages it posted while doing so.
   */
  datatype Exchange = Exchange(outcome: PyResult<Response>, posted: seq<OutboundPost>)

  datatype Method = GET | POST

  /**
   * One request to `/webhook`: its query arguments, its `X-Hub-Signature-256`
   * header, its raw body bytes, and what `request.get_json()` made of them
   * (None where it raised).
   */
  datatype Request = Request(
    verb: Method,
    args: map<string, string>,
    signatureHeader: Option<string>,
    data: Bytes,
    json: Option<Json>)

  /** `request.args.get(name)` */
  function Arg(req: Request, name: string): Option<string> {
    if name in req.args then Some(req.args[name]) else None
  }
}
