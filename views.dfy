/**
 * app/views.py: the `/webhook` blueprint. GET answers Meta's subscription
 * handshake; POST, behind `signature_required`, acknowledges status
 * callbacks, rejects events that are not messages, and processes messages.
 */
module Views {
  import opened PyJson
  import opened Codecs
  import opened Http
  import opened WhatsAppUtils
  import opened Security

  // ===========================================================================
  // verify: the subscription handshake
  // ===========================================================================

  /** Python truthiness of a query argument that may be absent. */
  predicate NonEmpty(o: Option<string>) {
    o.Some? && o.value != []
  }

  /**
   * `verify()`: echo the challenge when the mode is "subscribe" and the token
   * equals VERIFY_TOKEN; 400 when the mode or the token is absent or empty;
   * 403 otherwise.
   */
  function Verify(mode: Option<string>, token: Option<string>, challenge: Option<string>, cfg: Config): (r: Response)
    ensures r.status == 200 <==> mode == Some("subscribe") && NonEmpty(token) && cfg.verifyToken == token
    ensures r.status == 200 ==> r.body == Text(challenge)
    ensures r.status == 400 <==> !NonEmpty(mode) || !NonEmpty(token)
    ensures r.status == 400 ==> r == ErrorResponse("Missing parameters", 400)
    ensures r.status != 200 && r.status != 400 ==> r == ErrorResponse("Verification failed", 403)
  {
    if NonEmpty(mode) && NonEmpty(token) then
      if mode.value == "subscribe" && Some(token.value) == cfg.verifyToken then
        Response(Text(challenge), 200)
      else
        ErrorResponse("Verification failed", 403)
    else
      ErrorResponse("Missing parameters", 400)
  }

  /**
   * An unset VERIFY_TOKEN accepts no handshake: a token that passes the
   * missing-parameter test is a non-empty string, never None.
   */
  lemma UnsetVerifyTokenRejectsAll(mode: Option<string>, token: Option<string>, challenge: Option<string>, cfg: Config)
    requires cfg.verifyToken.None?
    ensures Verify(mode, token, challenge, cfg).status != 200
  {
  }

  /** A refused handshake never reveals the challenge: its answer does not depend on it. */
  lemma RefusalIgnoresChallenge(mode: Option<string>, token: Option<string>, c1: Option<string>, c2: Option<string>, cfg: Config)
    requires Verify(mode, token, c1, cfg).status != 200
    ensures Verify(mode, token, c1, cfg) == Verify(mode, token, c2, cfg)
    ensures Verify(mode, token, c1, cfg).body.JsonBody?
  {
  }

  // ===========================================================================
  // handle_message: the POST view
  // ===========================================================================

  /**
   * The status-callback test, `body.get("entry", [{}])[0].get("changes",
   * [{}])[0].get("value", {}).get("statuses")`, with the exceptions it raises.
   */
  function StatusUpdates(body: Json): (r: PyResult<Json>)
    ensures r.Ok? ==> body.JObj?
  {
    var entry :- GetOr(body, "entry", JArr([JObj(map[])]));
    var entry0 :- First(entry);
    var changes :- GetOr(entry0, "changes", JArr([JObj(map[])]));
    var change0 :- First(changes);
    var value :- GetOr(change0, "value", JObj(map[]));
    Get(value, "statuses")
  }

  /** A status callback: the first change's value is a dict with a truthy `statuses`. */
  predicate StatusEvent(body: Json) {
    HasKey(body, "entry") && FirstIsDict(Lookup(body, "entry"))
    && var entry0 := Lookup(body, "entry").items[0];
    HasKey(entry0, "changes") && FirstIsDict(Lookup(entry0, "changes"))
    && var value := Lookup(Lookup(entry0, "changes").items[0], "value");
    value.JObj? && Truthy(Lookup(value, "statuses"))
  }

  /**
   * The test is truthy exactly on status callbacks: each default it supplies
   * (`[{}]`, `{}`) leads to a None `statuses`, so no link may be missing.
   */
  lemma StatusUpdatesSpec(body: Json)
    ensures (StatusUpdates(body).Ok? && Truthy(StatusUpdates(body).value)) <==> StatusEvent(body)
  {
    var empty: Json := JObj(map[]);
    assert "changes" !in empty.fields && "value" !in empty.fields && "statuses" !in empty.fields;
    if body.JObj? {
      var entry := Lookup(body, "entry");
      if "entry" in body.fields && First(entry).Ok? && First(entry).value.JObj? {
        assert entry.JArr?;
        var changes := Lookup(entry.items[0], "changes");
        if "changes" in entry.items[0].fields && First(changes).Ok? && First(changes).value.JObj? {
          assert changes.JArr?;
        }
      }
    }
  }

  /**
   * The events on which the status test raises nothing: a dict in which each
   * link that is present (`entry`, `changes`, `value`) has the shape the next
   * step needs; a missing link takes its default and is harmless.
   */
  predicate StatusShape(body: Json) {
    body.JObj?
    && ("entry" in body.fields ==>
      FirstIsDict(body.fields["entry"])
      && var entry0 := body.fields["entry"].items[0];
      ("changes" in entry0.fields ==>
        FirstIsDict(entry0.fields["changes"])
        && var change0 := entry0.fields["changes"].items[0];
        ("value" in change0.fields ==> change0.fields["value"].JObj?)))
  }

  /**
   * The status test raises exactly on events outside `StatusShape`, for
   * example a present `entry` that is empty, a string, or a list whose first
   * element is not a dict.
   */
  lemma StatusRaisesIffIllShaped(body: Json)
    ensures StatusUpdates(body).Ok? <==> StatusShape(body)
  {
    var empty: Json := JObj(map[]);
    assert "changes" !in empty.fields && "value" !in empty.fields;
    if body.JObj? && "entry" in body.fields {
      var entry := body.fields["entry"];
      if First(entry).Ok? && First(entry).value.JObj? {
        assert entry.JArr?;
        var entry0 := entry.items[0];
        if "changes" in entry0.fields && First(entry0.fields["changes"]).Ok? && First(entry0.fields["changes"]).value.JObj? {
          assert entry0.fields["changes"].JArr?;
        }
      }
    }
  }

  /**
   * Once the status test has passed, the only validator exception left is a
   * truthy `messages` that is neither a list nor a string: `entry`,
   * `changes` and `value` already have the shapes the walk needs.
   */
  lemma PastStatusOnlyMessagesRaise(body: Json)
    requires StatusUpdates(body).Ok? && IsValidWhatsAppMessage(body).Raise?
    ensures FirstIsDict(Lookup(body, "entry"))
      && var entry0 := Lookup(body, "entry").items[0];
      FirstIsDict(Lookup(entry0, "changes"))
      && var value := Lookup(Lookup(entry0, "changes").items[0], "value");
      value.JObj?
      && var messages := Lookup(value, "messages");
      Truthy(messages) && !messages.JArr? && !messages.JStr?
  {
    StatusRaisesIffIllShaped(body);
    ValidRaisesIffIllTyped(body);
  }

  /** An event without `entry` is not a status callback, and the test raises nothing. */
  lemma NoEntryIsNoStatus(body: Json)
    requires body.JObj? && "entry" !in body.fields
    ensures StatusUpdates(body) == Ok(JNull)
  {
    var empty: Json := JObj(map[]);
    assert "changes" !in empty.fields && "value" !in empty.fields && "statuses" !in empty.fields;
  }

  /**
   * `handle_message()` on what `request.get_json()` produced (None when it
   * raised). The status test sits outside the view's `try`, so its
   * exceptions leave the view; the validation and the processing sit
   * inside, so theirs become 500. The result of `send_message` is not looked
   * at: a processed message is acknowledged with 200 however the send ended.
   */
  function HandleMessage(json: Option<Json>, cfg: Config, outcome: Transport): (r: Exchange)
    ensures json.None? ==> r == Exchange(Ok(ErrorResponse("Invalid JSON provided", 400)), [])
    ensures |r.posted| <= 1
    ensures r.outcome.Ok? ==> r.outcome.value.status in {200, 400, 404, 500}
    ensures r.outcome.Raise? ==> r.posted == []
  {
    match json
    case None => Exchange(Ok(ErrorResponse("Invalid JSON provided", 400)), [])
    case Some(body) =>
      match StatusUpdates(body)
      case Raise(e) => Exchange(Raise(e), [])
      case Ok(statuses) =>
        if Truthy(statuses) then Exchange(Ok(Response(JsonBody(OkJson()), 200)), [])
        else
          match IsValidWhatsAppMessage(body)
          case Raise(_) => Exchange(Ok(ErrorResponse("Internal server error", 500)), [])
          case Ok(false) => Exchange(Ok(ErrorResponse("Not a WhatsApp API event", 404)), [])
          case Ok(true) =>
            match ProcessWhatsAppMessage(body, cfg, outcome)
            case Raise(_) => Exchange(Ok(ErrorResponse("Internal server error", 500)), [])
            case Ok(p) => Exchange(Ok(Response(JsonBody(OkJson()), 200)), [p.sent.post])
  }

  /** A status callback is acknowledged with 200 before any validation, and nothing is sent. */
  lemma StatusCallbackAcknowledged(body: Json, cfg: Config, outcome: Transport)
    requires StatusEvent(body)
    ensures HandleMessage(Some(body), cfg, outcome) == Exchange(Ok(Response(JsonBody(OkJson()), 200)), [])
  {
    StatusUpdatesSpec(body);
  }

  /**
   * A message event whose text is a string is acknowledged with 200 and makes
   * exactly one POST: to the messages endpoint, carrying the upper-cased
   * text addressed to RECIPIENT_WAID.
   */
  lemma MessageAnswered(body: Json, cfg: Config, outcome: Transport)
    requires !StatusEvent(body) && StatusUpdates(body).Ok?
    requires MessagePathPresent(body) && Extractable(body) && ExpectedMessage(body).text.JStr?
    ensures var r := HandleMessage(Some(body), cfg, outcome);
      r.outcome == Ok(Response(JsonBody(OkJson()), 200))
      && |r.posted| == 1
      && r.posted[0].url == MessagesUrl(cfg)
      && ReadTextMessage(r.posted[0].data) == Some((RecipientJson(cfg.recipientWaid), Upper(ExpectedMessage(body).text.s)))
  {
    StatusUpdatesSpec(body);
    ValidIffMessagePath(body);
    ProcessSendsReply(body, cfg, outcome);
  }

  /** A well-typed event that lacks the message path is answered 404. */
  lemma NotAnEventIs404(body: Json, cfg: Config, outcome: Transport)
    requires !StatusEvent(body) && StatusUpdates(body).Ok?
    requires PathWellTyped(body) && !MessagePathPresent(body)
    ensures HandleMessage(Some(body), cfg, outcome) == Exchange(Ok(ErrorResponse("Not a WhatsApp API event", 404)), [])
  {
    StatusUpdatesSpec(body);
    MissingLinkIsFalse(body);
  }

  /**
   * Past the status test, every exception is a 500 with nothing sent: an
   * event the validator cannot walk, and a valid event that processing
   * cannot read (no contacts, no text, a text that is not a string).
   */
  lemma FailuresAre500(body: Json, cfg: Config, outcome: Transport)
    requires !StatusEvent(body) && StatusUpdates(body).Ok?
    requires !PathWellTyped(body)
      || (MessagePathPresent(body) && !(Extractable(body) && ExpectedMessage(body).text.JStr?))
    ensures HandleMessage(Some(body), cfg, outcome) == Exchange(Ok(ErrorResponse("Internal server error", 500)), [])
  {
    StatusUpdatesSpec(body);
    ValidRaisesIffIllTyped(body);
    ValidIffMessagePath(body);
    ProcessSendsReply(body, cfg, outcome);
  }

  /**
   * What the POST view answers does not depend on the transport: a send
   * that timed out or failed is still acknowledged with 200, so 408 is never
   * returned.
   */
  lemma AnswerIgnoresTransport(json: Option<Json>, cfg: Config, o1: Transport, o2: Transport)
    ensures HandleMessage(json, cfg, o1).outcome == HandleMessage(json, cfg, o2).outcome
    ensures HandleMessage(json, cfg, o1).posted == HandleMessage(json, cfg, o2).posted
  {
  }

  // ===========================================================================
  // The routes
  // ===========================================================================

  /**
   * One request to `/webhook`: GET goes to `verify`, POST to `handle_message`
   * behind `signature_required`.
   */
  function Webhook(req: Request, cfg: Config, mac: Mac, outcome: Transport): (r: Exchange)
    ensures r.outcome.Ok?
    ensures req.verb.GET? ==> r.posted == [] && r.outcome.value.status in {200, 400, 403}
    ensures r.outcome.value.status in {200, 400, 403, 404, 500}
  {
    match req.verb
    case GET =>
      Exchange(Ok(Verify(Arg(req, "hub.mode"), Arg(req, "hub.verify_token"), Arg(req, "hub.challenge"), cfg)), [])
    case POST =>
      var r := SignatureRequired(req.signatureHeader, req.data, cfg, mac, () => HandleMessage(req.json, cfg, outcome));
      assert r.outcome.value.status in {200, 400, 403, 404, 500} by {
        GateFailuresAre403(req.signatureHeader, req.data, cfg, mac, () => HandleMessage(req.json, cfg, outcome));
      }
      r
  }

  /** An unsigned or wrongly signed POST is refused with 403, nothing sent, whatever its body. */
  lemma UnauthenticPostRefused(req: Request, cfg: Config, mac: Mac, outcome: Transport)
    requires req.verb.POST? && !Authentic(req.signatureHeader, req.data, cfg, mac)
    ensures var r := Webhook(req, cfg, mac, outcome);
      r.outcome.value.status == 403 && r.posted == []
      && r == Webhook(req.(json := None), cfg, mac, outcome)
  {
    UnauthenticRejected(req.signatureHeader, req.data, cfg, mac,
      () => HandleMessage(req.json, cfg, outcome), () => HandleMessage(None, cfg, outcome));
  }

  /**
   * The status test sits outside the view's `try`: `handle_message` raises
   * exactly on the events the status test cannot walk, with that test's own
   * exception and nothing sent.
   */
  lemma StatusTestRaiseEscapes(body: Json, cfg: Config, outcome: Transport)
    ensures HandleMessage(Some(body), cfg, outcome).outcome.Raise? <==> !StatusShape(body)
    ensures !StatusShape(body) ==>
      HandleMessage(Some(body), cfg, outcome) == Exchange(Raise(StatusUpdates(body).error), [])
  {
    StatusRaisesIffIllShaped(body);
  }

  /** An authentic POST gets what `handle_message` answers, an exception from it becoming 403. */
  lemma AuthenticPostHandled(req: Request, cfg: Config, mac: Mac, outcome: Transport)
    requires req.verb.POST? && Authentic(req.signatureHeader, req.data, cfg, mac)
    ensures var h := HandleMessage(req.json, cfg, outcome);
      Webhook(req, cfg, mac, outcome) ==
        if h.outcome.Ok? then h else Exchange(Ok(ErrorResponse("Signature validation error", 403)), [])
  {
    AuthenticRunsView(req.signatureHeader, req.data, cfg, mac, () => HandleMessage(req.json, cfg, outcome));
  }

  /**
   * An authentic POST of `{"entry": []}` passes the signature check, then the
   * status test indexes an empty list; the IndexError leaves the view and the
   * decorator answers 403 "Signature validation error".
   */
  lemma EmptyEntryCrashesToForbidden(req: Request, cfg: Config, mac: Mac, outcome: Transport)
    requires req.verb.POST? && Authentic(req.signatureHeader, req.data, cfg, mac)
    requires req.json == Some(JObj(map["entry" := JArr([])]))
    ensures Webhook(req, cfg, mac, outcome) == Exchange(Ok(ErrorResponse("Signature validation error", 403)), [])
  {
    var body := JObj(map["entry" := JArr([])]);
    assert StatusUpdates(body) == Raise(IndexError);
    AuthenticPostHandled(req, cfg, mac, outcome);
  }

  /**
   * Without `object`, a malformed `messages` is not a 404: the validator's
   * logging walk raises, and the view answers 500.
   */
  lemma ObjectlessMalformedIs500(cfg: Config, outcome: Transport)
    ensures var value := JObj(map["messages" := JObj(map["id" := JStr("x")])]);
      var body := JObj(map["entry" := JArr([JObj(map["changes" := JArr([JObj(map["value" := value])])])])]);
      HandleMessage(Some(body), cfg, outcome) == Exchange(Ok(ErrorResponse("Internal server error", 500)), [])
  {
    var value := JObj(map["messages" := JObj(map["id" := JStr("x")])]);
    var change0 := JObj(map["value" := value]);
    var entry0 := JObj(map["changes" := JArr([change0])]);
    var body := JObj(map["entry" := JArr([entry0])]);
    assert "statuses" !in value.fields;
    assert StatusUpdates(body) == Ok(JNull);
    ObjectlessEventCanRaise();
  }

  /**
   * An authentic POST whose event the status test cannot walk is answered
   * 403 "Signature validation error" by the decorator, with nothing sent.
   */
  lemma IllShapedPostForbidden(req: Request, cfg: Config, mac: Mac, outcome: Transport)
    requires req.verb.POST? && Authentic(req.signatureHeader, req.data, cfg, mac)
    requires req.json.Some? && !StatusShape(req.json.value)
    ensures Webhook(req, cfg, mac, outcome) == Exchange(Ok(ErrorResponse("Signature validation error", 403)), [])
  {
    StatusTestRaiseEscapes(req.json.value, cfg, outcome);
    AuthenticPostHandled(req, cfg, mac, outcome);
  }

  /** The handshake reads only the query arguments: headers, body and transport play no part. */
  lemma HandshakeIgnoresBody(req: Request, header: Option<string>, data: Bytes, json: Option<Json>, cfg: Config, m1: Mac, m2: Mac, o1: Transport, o2: Transport)
    requires req.verb.GET?
    ensures Webhook(req, cfg, m1, o1) == Webhook(req.(signatureHeader := header, data := data, json := json), cfg, m2, o2)
  {
  }
}
