/**
 * app/decorators/security.py: HMAC-SHA256 validation of the raw request
 * body and the `signature_required` decorator that guards the POST view.
 */
module Security {
  import opened PyJson
  import opened Codecs
  import opened Http

  /** HMAC-SHA256 as a function of key bytes and message bytes; its internals are not modelled. */
  type Mac = (Bytes, Bytes) -> Bytes

  /** `hmac.compare_digest(a, b)` on two `str`: a TypeError unless both are ASCII. */
  function CompareDigest(a: string, b: string): (r: PyResult<bool>)
    ensures r.Ok? <==> IsAscii(a) && IsAscii(b)
    ensures r.Ok? ==> (r.value <==> a == b)
    ensures r.Raise? ==> r.error == TypeError
  {
    if IsAscii(a) && IsAscii(b) then Ok(a == b) else Raise(TypeError)
  }

  /** The hex digest the code computes for a decoded payload under `key`. */
  function ExpectedSignature(mac: Mac, key: Bytes, payload: string): string {
    HexDigest(mac(key, Utf8Encode(payload)))
  }

  /**
   * `validate_signature(payload, signature)`: true exactly when APP_SECRET is
   * set and latin-1 encodable and `signature` is the hex HMAC of the payload's
   * UTF-8 bytes; every exception on the way reads as false.
   */
  function ValidateSignature(cfg: Config, mac: Mac, payload: string, signature: string): (valid: bool)
    ensures valid <==> (Latin1Bytes(cfg.appSecret).Ok?
      && signature == ExpectedSignature(mac, Latin1Bytes(cfg.appSecret).value, payload))
  {
    match Latin1Bytes(cfg.appSecret)
    case Raise(_) => false
    case Ok(key) =>
      match CompareDigest(ExpectedSignature(mac, key, payload), signature)
      case Raise(_) => false
      case Ok(valid) => valid
  }

  /** An unset or non-latin-1 APP_SECRET fails every signature rather than raising. */
  lemma BadSecretRejectsAll(cfg: Config, mac: Mac, payload: string, signature: string)
    requires cfg.appSecret.None? || Latin1(cfg.appSecret.value).None?
    ensures !ValidateSignature(cfg, mac, payload, signature)
  {
  }

  const SignaturePrefix: string := "sha256="

  predicate StartsWith(s: string, prefix: string) {
    |prefix| <= |s| && s[..|prefix|] == prefix
  }

  /** `full[7:] if full.startswith("sha256=") else full` */
  function StripSignaturePrefix(full: string): (r: string)
    ensures StartsWith(full, SignaturePrefix) ==> SignaturePrefix + r == full
    ensures !StartsWith(full, SignaturePrefix) ==> r == full
  {
    if StartsWith(full, SignaturePrefix) then full[|SignaturePrefix|..] else full
  }

  /** The prefix is removed once, even when what follows it starts with it again. */
  lemma StripPrefixOnce(x: string)
    ensures StripSignaturePrefix(SignaturePrefix + x) == x
  {
    assert (SignaturePrefix + x)[..|SignaturePrefix|] == SignaturePrefix;
  }

  /** `request.headers.get("X-Hub-Signature-256", "")` */
  function HeaderValue(header: Option<string>): string {
    match header
    case None => ""
    case Some(h) => h
  }

  /** The request passes the gate: a non-empty header, a UTF-8 body, a matching signature. */
  predicate Authentic(header: Option<string>, data: Bytes, cfg: Config, mac: Mac) {
    HeaderValue(header) != []
    && Utf8Decode(data).Some?
    && ValidateSignature(cfg, mac, Utf8Decode(data).value, StripSignaturePrefix(HeaderValue(header)))
  }

  /**
   * `signature_required(view)` applied to one request. The view runs only
   * after the checks pass; any exception it raises is caught by the
   * decorator's own `try` and answered with 403 like every other failure.
   */
  function SignatureRequired(header: Option<string>, data: Bytes, cfg: Config, mac: Mac, view: () -> Exchange): (r: Exchange)
    ensures r.outcome.Ok?
    ensures HeaderValue(header) == [] ==> r == Exchange(Ok(ErrorResponse("Missing signature header", 403)), [])
  {
    var full := HeaderValue(header);
    if full == [] then Exchange(Ok(ErrorResponse("Missing signature header", 403)), [])
    else
      var signature := StripSignaturePrefix(full);
      match Utf8Decode(data)
      case None => Exchange(Ok(ErrorResponse("Signature validation error", 403)), [])
      case Some(payload) =>
        if !ValidateSignature(cfg, mac, payload, signature) then
          Exchange(Ok(ErrorResponse("Invalid signature", 403)), [])
        else
          var inner := view();
          match inner.outcome
          case Ok(_) => inner
          case Raise(_) => Exchange(Ok(ErrorResponse("Signature validation error", 403)), inner.posted)
  }

  /**
   * A request that is not authentic is answered 403 without the view: the
   * answer is the same whatever the view would do, and nothing is posted.
   */
  lemma UnauthenticRejected(header: Option<string>, data: Bytes, cfg: Config, mac: Mac, v1: () -> Exchange, v2: () -> Exchange)
    requires !Authentic(header, data, cfg, mac)
    ensures var r := SignatureRequired(header, data, cfg, mac, v1);
      r == SignatureRequired(header, data, cfg, mac, v2)
      && r.outcome.value.status == 403 && r.posted == []
  {
  }

  /** An authentic request gets the view's answer; an exception from the view becomes 403. */
  lemma AuthenticRunsView(header: Option<string>, data: Bytes, cfg: Config, mac: Mac, view: () -> Exchange)
    requires Authentic(header, data, cfg, mac)
    ensures view().outcome.Ok? ==> SignatureRequired(header, data, cfg, mac, view) == view()
    ensures view().outcome.Raise? ==>
      SignatureRequired(header, data, cfg, mac, view) == Exchange(Ok(ErrorResponse("Signature validation error", 403)), view().posted)
  {
  }

  /**
   * Each refusal carries its own message: a body that is not UTF-8 is a
   * "Signature validation error", a digest that does not match an "Invalid
   * signature"; in neither case does the view run.
   */
  lemma GateRefusals(header: Option<string>, data: Bytes, cfg: Config, mac: Mac, view: () -> Exchange)
    requires HeaderValue(header) != []
    ensures Utf8Decode(data).None? ==>
      SignatureRequired(header, data, cfg, mac, view) == Exchange(Ok(ErrorResponse("Signature validation error", 403)), [])
    ensures Utf8Decode(data).Some? && !Authentic(header, data, cfg, mac) ==>
      SignatureRequired(header, data, cfg, mac, view) == Exchange(Ok(ErrorResponse("Invalid signature", 403)), [])
  {
  }

  /** Whatever the gate answers on its own account is a 403. */
  lemma GateFailuresAre403(header: Option<string>, data: Bytes, cfg: Config, mac: Mac, view: () -> Exchange)
    ensures var r := SignatureRequired(header, data, cfg, mac, view);
      r != view() ==> r.outcome.value.status == 403
  {
  }

  /**
   * The signature is checked against the request body exactly as it arrived:
   * with a UTF-8 body, `sha256=<hex>` passes exactly when `<hex>` is the hex
   * HMAC of the raw bytes under the latin-1 bytes of APP_SECRET.
   */
  lemma SignatureCoversRawBytes(hex: string, data: Bytes, cfg: Config, mac: Mac)
    requires Utf8Decode(data).Some?
    ensures Authentic(Some(SignaturePrefix + hex), data, cfg, mac) <==>
      Latin1Bytes(cfg.appSecret).Ok? && hex == HexDigest(mac(Latin1Bytes(cfg.appSecret).value, data))
  {
    StripPrefixOnce(hex);
    Utf8EncodeDecode(data);
  }

  /**
   * A body signed with APP_SECRET passes the gate, with or without the
   * `sha256=` prefix (a SHA-256 digest is 32 bytes, so its hex is never empty).
   */
  lemma SignedRequestPasses(secret: string, data: Bytes, cfg: Config, mac: Mac)
    requires cfg.appSecret == Some(secret) && Latin1(secret).Some?
    requires Utf8Decode(data).Some?
    requires |mac(Latin1(secret).value, data)| == 32
    ensures var hex := HexDigest(mac(Latin1(secret).value, data));
      Authentic(Some(SignaturePrefix + hex), data, cfg, mac)
      && Authentic(Some(hex), data, cfg, mac)
  {
    var hex := HexDigest(mac(Latin1(secret).value, data));
    SignatureCoversRawBytes(hex, data, cfg, mac);
    assert HexValue(hex[6]).Some? && hex[..7][6] == hex[6];
    assert hex[..7] != SignaturePrefix;
    Utf8EncodeDecode(data);
  }
}
