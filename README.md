# WhatsApp webhook core, modelled in Dafny

This project models the request pipeline of a Flask webhook for the WhatsApp
Cloud API. The pipeline has two halves:

- **The GET handshake** (`verify`). It echoes Meta's `hub.challenge` when the
  mode is `subscribe` and the token equals `VERIFY_TOKEN`.
- **The POST event handler** (`handle_message`). It sits behind the
  `signature_required` decorator, which checks the `X-Hub-Signature-256`
  HMAC-SHA256 of the raw body under `APP_SECRET`. The handler:
  - acknowledges delivery-status callbacks with 200;
  - rejects payloads that do not have the message path with 404;
  - takes each text message it accepts, upper-cases the text and posts it
    back through the Graph API `/{VERSION}/{PHONE_NUMBER_ID}/messages`
    endpoint to the configured `RECIPIENT_WAID`.

Everything is modelled as pure functions over values, because the code keeps
no state of its own:

- Configuration is a `Config` record of six `Option<string>` values. They are
  read with `os.getenv` in `app/config.py`, so each may be unset.
- The parsed request body is a `Json` value, or `None` where parsing raised.
- HMAC-SHA256 is a function parameter `mac`.
- The outcome of the outbound HTTP call is a `Transport` value.
- What a view did is an `Exchange`: the response it returned or the exception
  it raised, plus the outbound posts it made.

Python's dynamic typing is followed exactly, because the code relies on it:

- `.get` on a value that is not a dict raises AttributeError.
- `x[0]` on a dict raises KeyError.
- `x[0]` on an empty list or string raises IndexError.
- `x[0]` on a non-empty string is its first character.
- Subscripting a scalar raises TypeError.
- Python truthiness decides every `and`/`if`.

Modules:

- `PyJson` (pyjson.dfy): JSON values, `PyResult`, and the Python lookups.
- `Codecs` (codecs.dfy): strict UTF-8, latin-1 and lower-case hex, with their
  round trips.
- `Http` (http.dfy): the configuration, responses, requests and exchanges.
- `WhatsAppUtils` (whatsapp_utils.dfy): `app/utils/whatsapp_utils.py`.
- `Security` (security.dfy): `app/decorators/security.py`.
- `Views` (views.dfy): `app/views.py`.

### Behaviour of the code worth knowing

- **The validator can raise.** `is_valid_whatsapp_message` indexes and calls
  `.get` on whatever the event holds. Once the status test has passed,
  `entry`, `changes` and `value` already have the shapes it needs, so the
  only validator exception that reaches `handle_message` comes from a truthy
  `messages` that is neither a list nor a string, for example a dict
  (`Views.PastStatusOnlyMessagesRaise`). `handle_message` catches it and
  answers 500 (`Views.FailuresAre500`).
- **The validator's logging list can raise.** The `checks` list built for
  logging walks `entry[0]` down to `messages[0]` before the `and` chain
  runs, and without the chain's test on `object`. So an event with no
  `object` but a malformed `messages` raises, and is answered 500 rather
  than 404 (`Views.ObjectlessMalformedIs500`).
- **The status-callback test sits outside `handle_message`'s `try`.** Its
  exceptions leave the view, for example on the body `{"entry": []}`, on an
  `entry` that is a string or a list whose first element is not a dict, on
  `null` or on a top-level list (`Views.StatusRaisesIffIllShaped`). The
  decorator's own `try` catches them and answers 403 "Signature validation
  error" (`Views.StatusTestRaiseEscapes`, `Views.IllShapedPostForbidden`,
  and the example `Views.EmptyEntryCrashesToForbidden`).
- **The POST never answers 408.** The code discards `send_message`'s result,
  so a processed message is answered 200 whatever the transport did
  (`Views.AnswerIgnoresTransport`). The 408 mapping exists only inside
  `send_message` (`WhatsAppUtils.SendOutcome`).
- **`raise_for_status` has an upper bound.** It raises for statuses from 400
  to 599. A status of 600 or more counts as delivered.

## Model

| member | source | states |
|---|---|---|
| PyJson.Get | app/utils/whatsapp_utils.py:190-194 | `d.get(k)` succeeds exactly on dicts, giving the value under a present key and None for an absent one; AttributeError otherwise |
| PyJson.GetOr | app/utils/whatsapp_utils.py:125-126 | `d.get(k, default)` is the value under `k`, else the default; AttributeError on a non-dict |
| PyJson.Item | app/utils/whatsapp_utils.py:118-127 | `x[k]` succeeds exactly when `x` is a dict holding `k`; KeyError on a dict, TypeError otherwise |
| PyJson.First | app/utils/whatsapp_utils.py:118-124 | `x[0]` succeeds exactly on a non-empty list or string, giving the first element or the first character; KeyError on a dict, IndexError on an empty list or string, TypeError otherwise |
| Codecs.Utf8Encode | app/decorators/security.py:18 | `str.encode("utf-8")` never produces fewer bytes than characters |
| Codecs.DecodeEncodeScalar | app/decorators/security.py:18 | decoding the encoding of one scalar gives that scalar and its width back (Unicode Table 3-7) |
| Codecs.EncodeDecodeScalar | app/decorators/security.py:66 | one well-formed decoded scalar re-encodes to exactly the bytes it came from |
| Codecs.Utf8DecodeEncode | app/decorators/security.py:18 | strict UTF-8 decoding inverts encoding on every string |
| Codecs.Utf8EncodeDecode | app/decorators/security.py:66 | a body that decodes re-encodes to the very same bytes, so the signed payload is the raw body |
| Codecs.Latin1 | app/decorators/security.py:17 | latin-1 encoding succeeds exactly when every character is below 256, and then maps each character to its code |
| Codecs.Latin1Bytes | app/decorators/security.py:17 | `bytes(APP_SECRET, "latin-1")` raises TypeError when unset, fails with UnicodeError exactly when the secret is not latin-1, and otherwise gives one byte per character |
| Codecs.HexDigit | app/decorators/security.py:20 | each hex digit is ASCII and parses back to its value |
| Codecs.HexDigest | app/decorators/security.py:20 | `hexdigest()` is twice as long as the digest, ASCII, and made only of hex digits |
| Codecs.HexRoundTrip | app/decorators/security.py:20 | parsing a hex digest gives the digest bytes back |
| Codecs.HexDigestInjective | app/decorators/security.py:26 | equal hex digests come from equal digests, so comparing hex strings compares digests |
| WhatsAppUtils.GetTextMessageInput | app/utils/whatsapp_utils.py:21-30 | the envelope has exactly the five fields, the constants `whatsapp`/`individual`/`text`/`preview_url=false`, and `to` and `body` equal to the arguments |
| WhatsAppUtils.TextMessageRoundTrip | app/utils/whatsapp_utils.py:21-30 | reading an envelope back gives its recipient and text |
| WhatsAppUtils.ReadTextMessageOnlyEnvelopes | app/utils/whatsapp_utils.py:21-30 | everything read as an envelope is one the builder produces |
| WhatsAppUtils.TextMessageInjective | app/utils/whatsapp_utils.py:21-30 | different recipients or texts give different envelopes |
| WhatsAppUtils.UpperAt | app/utils/whatsapp_utils.py:33-35 | upper-casing keeps the length and maps each character on its own |
| WhatsAppUtils.UpperHasNoLower | app/utils/whatsapp_utils.py:33-35 | no ASCII lower-case letter survives upper-casing |
| WhatsAppUtils.UpperFixesNoLower | app/utils/whatsapp_utils.py:33-35 | text without ASCII lower-case letters is unchanged |
| WhatsAppUtils.UpperFixedPoints | app/utils/whatsapp_utils.py:33-35 | upper-casing leaves a string unchanged exactly when it has no ASCII lower-case letter |
| WhatsAppUtils.UpperIdempotent | app/utils/whatsapp_utils.py:33-35 | upper-casing twice is upper-casing once |
| WhatsAppUtils.GenerateResponse | app/utils/whatsapp_utils.py:33-35 | `x.upper()` succeeds exactly on strings (AttributeError otherwise) and is then the upper-cased string: same length, no lower-case letter left |
| WhatsAppUtils.CloseOnLine | app/utils/whatsapp_utils.py:95-97 | the lazy `.*?\】` match ends at the first 】 with no newline before it; when there is none, every 】 has a newline before it |
| WhatsAppUtils.RemoveBracketSpans | app/utils/whatsapp_utils.py:95-97 | deleting 【…】 spans never lengthens the text |
| WhatsAppUtils.RemovalKeepsLineClear | app/utils/whatsapp_utils.py:95-97 | deleting spans never brings a 】 onto a line that had none |
| WhatsAppUtils.NoBracketSpanCons | app/utils/whatsapp_utils.py:95-97 | a span-free text stays span-free when a character that opens no span is put in front |
| WhatsAppUtils.SpanDeleted | app/utils/whatsapp_utils.py:95-97 | a 【 closed later on its line is deleted together with its content up to the first 】, and the scan goes on after it |
| WhatsAppUtils.UnclosedOpenKept | app/utils/whatsapp_utils.py:95-97 | a 【 with no 】 after it on its line is kept |
| WhatsAppUtils.PlainTextKept | app/utils/whatsapp_utils.py:95-97 | text without a 【 passes through unchanged, whatever follows it |
| WhatsAppUtils.RemovalDeletesOnly | app/utils/whatsapp_utils.py:95-97 | the first pass only deletes characters: what is left is a subsequence of the input |
| WhatsAppUtils.RemovedHasNoSpan | app/utils/whatsapp_utils.py:95-97 | after the first pass no 【 has a 】 later on its line |
| WhatsAppUtils.RemoveSpansFixes | app/utils/whatsapp_utils.py:95-97 | span-free text is left unchanged by the first pass |
| WhatsAppUtils.RemoveSpansIdempotent | app/utils/whatsapp_utils.py:95-97 | the first pass is idempotent |
| WhatsAppUtils.SkipSpaces | app/utils/whatsapp_utils.py:97 | the scan stops at the first non-whitespace character, or the end, having passed only whitespace |
| WhatsAppUtils.TrimEnd | app/utils/whatsapp_utils.py:97 | the scan back stops after the last non-whitespace character, having passed only whitespace |
| WhatsAppUtils.Strip | app/utils/whatsapp_utils.py:97 | `.strip()` is a slice of its input, only whitespace is dropped on both sides, and no whitespace is left at either end |
| WhatsAppUtils.StripIdempotent | app/utils/whatsapp_utils.py:97 | stripping twice is stripping once |
| WhatsAppUtils.StarPairOnLine | app/utils/whatsapp_utils.py:100-106 | the lazy `(.*?)\*\*` match ends at the first `**`, with no newline and no `**` before it; when there is none, every `**` has a newline before it |
| WhatsAppUtils.CollapseBold | app/utils/whatsapp_utils.py:100-106 | the `**x**` to `*x*` rewrite never lengthens the text, keeps it empty exactly when it was, and keeps its first and last characters |
| WhatsAppUtils.UnstarredAppend | app/utils/whatsapp_utils.py:100-106 | removing asterisks distributes over concatenation |
| WhatsAppUtils.CollapseBoldDropsOnlyStars | app/utils/whatsapp_utils.py:100-106 | the rewrite deletes asterisks and nothing else |
| WhatsAppUtils.StarPairAfter | app/utils/whatsapp_utils.py:100 | in `x**rest`, with x a star-free single line, the closing `**` is found right after x |
| WhatsAppUtils.CollapseBoldRewrites | app/utils/whatsapp_utils.py:100-106 | `**x**rest` becomes `*x*` followed by the rewritten rest, for x on one line with no `**` and no trailing `*` (so x may hold single asterisks) |
| WhatsAppUtils.UnmatchedPairKept | app/utils/whatsapp_utils.py:100-106 | a `**` with no later `**` on its line is kept as it is |
| WhatsAppUtils.CollapseBoldFixes | app/utils/whatsapp_utils.py:100-106 | text in which no `**` has a later `**` on its line is left unchanged |
| WhatsAppUtils.NoDoubleStarFixed | app/utils/whatsapp_utils.py:100-106 | text without `**` is left unchanged |
| WhatsAppUtils.ProcessTextForWhatsApp | app/utils/whatsapp_utils.py:93-108 | the three-pass rewrite never lengthens the text and leaves no whitespace at either end |
| WhatsAppUtils.StrippedHasNoSpan | app/utils/whatsapp_utils.py:95-97 | after removal and strip, no 【…】 span is left |
| WhatsAppUtils.StripKeepsNoSpan | app/utils/whatsapp_utils.py:97 | stripping span-free text keeps it span-free |
| WhatsAppUtils.NoBracketSpanSlice | app/utils/whatsapp_utils.py:95-97 | every slice of span-free text is span-free |
| WhatsAppUtils.ClearPrefix | app/utils/whatsapp_utils.py:95-97 | a prefix of a line segment without 】 has none either |
| WhatsAppUtils.SendOutcome | app/utils/whatsapp_utils.py:61-90 | the outcome is a failure with 408 exactly on a timeout, otherwise 500; it is the response itself exactly when one arrived with a status outside 400-599 |
| WhatsAppUtils.SendMessage | app/utils/whatsapp_utils.py:38-90 | the POST goes to the messages endpoint of VERSION and PHONE_NUMBER_ID, with the given data, a 10-second timeout, exactly the headers `Content-type: application/json` and `Authorization: Bearer ACCESS_TOKEN`, and ends as the outcome mapping says |
| WhatsAppUtils.ExtractMessageSpec | app/utils/whatsapp_utils.py:118-127 | extraction succeeds exactly on events with every link present, and reads wa_id, name and text body, with id and timestamp defaulting to `"unknown"` |
| WhatsAppUtils.ProcessReraises | app/utils/whatsapp_utils.py:156-164 | an extraction error leaves processing as the same exception, and a non-string text raises AttributeError |
| WhatsAppUtils.ProcessSendsReply | app/utils/whatsapp_utils.py:134-151 | processing succeeds exactly on extractable events with a string text; the reply is the upper-cased text, posted to RECIPIENT_WAID rather than the sender |
| WhatsAppUtils.ValidIffMessagePath | app/utils/whatsapp_utils.py:174-203 | the check is truthy exactly when `object` is truthy, `entry[0]` and `changes[0]` are dicts, `value` is a non-empty dict, and `messages[0]` is present and truthy |
| WhatsAppUtils.ValidRaisesIffIllTyped | app/utils/whatsapp_utils.py:174-196 | the check raises exactly when the body is not a dict or a truthy link from `entry` to `messages` is not the container the next step indexes, whether or not `object` is truthy |
| WhatsAppUtils.MissingLinkIsFalse | app/utils/whatsapp_utils.py:189-203 | on a well-typed event, a missing or empty link makes the check false rather than raising |
| WhatsAppUtils.ObjectlessEventCanRaise | app/utils/whatsapp_utils.py:174-183 | an event with no `object` and a dict `messages` lacks the message path, yet the check raises KeyError instead of answering false |
| WhatsAppUtils.ValidYetNotExtractable | app/utils/whatsapp_utils.py:118-127 | an event passes the check yet fails extraction with KeyError, because `contacts` is never checked |
| Security.CompareDigest | app/decorators/security.py:26 | `compare_digest` on strings is equality when both are ASCII, a TypeError otherwise |
| Security.ValidateSignature | app/decorators/security.py:8-38 | true exactly when APP_SECRET is set and latin-1, and the signature is the hex HMAC of the payload's UTF-8 bytes; every exception reads as false |
| Security.BadSecretRejectsAll | app/decorators/security.py:36-38 | an unset or non-latin-1 APP_SECRET rejects every signature without raising |
| Security.StripSignaturePrefix | app/decorators/security.py:62 | a leading `sha256=` is removed; a header without it is used unchanged |
| Security.StripPrefixOnce | app/decorators/security.py:62 | the prefix is removed once, even if what follows starts with it again |
| Security.SignatureRequired | app/decorators/security.py:41-84 | the decorator always answers; a missing or empty header gives 403 "Missing signature header" with nothing posted |
| Security.UnauthenticRejected | app/decorators/security.py:53-73 | a request that is not authentic gets 403, whatever the view would do, and nothing is posted |
| Security.AuthenticRunsView | app/decorators/security.py:77-82 | an authentic request gets the view's answer; an exception from the view becomes 403 "Signature validation error" |
| Security.GateRefusals | app/decorators/security.py:66-82 | a body that is not UTF-8 gives 403 "Signature validation error"; a mismatching signature gives 403 "Invalid signature" |
| Security.GateFailuresAre403 | app/decorators/security.py:56-82 | every answer the gate gives on its own account is 403 |
| Security.SignatureCoversRawBytes | app/decorators/security.py:16-26 | a prefixed hex signature passes exactly when it is the hex HMAC of the raw body bytes under the latin-1 secret |
| Security.SignedRequestPasses | app/decorators/security.py:62-70 | a correctly signed body passes with or without the `sha256=` prefix |
| Views.Verify | app/views.py:86-117 | 200 with the challenge exactly when the mode is `subscribe` and a non-empty token equals VERIFY_TOKEN; 400 "Missing parameters" exactly when the mode or the token is missing or empty; otherwise 403 "Verification failed" |
| Views.UnsetVerifyTokenRejectsAll | app/views.py:95-97 | with VERIFY_TOKEN unset, no handshake succeeds |
| Views.RefusalIgnoresChallenge | app/views.py:103-117 | a refused handshake answers a constant JSON error that does not depend on the challenge |
| Views.StatusUpdates | app/views.py:43-48 | the status test raises nothing only on dicts |
| Views.StatusRaisesIffIllShaped | app/views.py:43-48 | the status test raises exactly when the body is not a dict, or a present `entry`, `changes` or `value` lacks the shape the next step needs (a list with a dict first, a dict) |
| Views.PastStatusOnlyMessagesRaise | app/utils/whatsapp_utils.py:174-196 | after the status test has passed, a validator exception can only come from a truthy `messages` that is neither a list nor a string |
| Views.StatusUpdatesSpec | app/views.py:43-48 | the status test is truthy exactly when `entry[0].changes[0].value` is a dict with a truthy `statuses` |
| Views.NoEntryIsNoStatus | app/views.py:43-48 | without `entry`, the defaults make the test None, and it raises nothing |
| Views.HandleMessage | app/views.py:15-76 | a parse failure answers 400 "Invalid JSON provided" before anything else; at most one post is made; answers are 200, 400, 404 or 500; an exception leaves with nothing posted |
| Views.StatusTestRaiseEscapes | app/views.py:43-53 | `handle_message` raises exactly when the status test cannot walk the event, with that test's exception and nothing sent |
| Views.StatusCallbackAcknowledged | app/views.py:43-51 | a status callback is answered 200 `{"status": "ok"}` before validation, with nothing sent |
| Views.MessageAnswered | app/views.py:53-60 | a valid message with a string text is answered 200 and posts exactly one reply, the upper-cased text, to RECIPIENT_WAID |
| Views.NotAnEventIs404 | app/views.py:61-68 | a well-typed event without the message path is answered 404 "Not a WhatsApp API event" |
| Views.FailuresAre500 | app/views.py:72-74 | an exception from validation or processing is answered 500 "Internal server error", with nothing sent |
| Views.AnswerIgnoresTransport | app/views.py:58-60 | the answer and the posts do not depend on how the send ended, so 408 is never returned |
| Views.Webhook | app/views.py:120-129 | every request is answered with 200, 400, 403, 404 or 500; a GET posts nothing and answers 200, 400 or 403 |
| Views.UnauthenticPostRefused | app/views.py:125-129 | an unauthentic POST is answered 403 with nothing sent, whatever its body |
| Views.AuthenticPostHandled | app/views.py:125-129 | an authentic POST gets `handle_message`'s answer, and an exception from it becomes 403 "Signature validation error" |
| Views.IllShapedPostForbidden | app/decorators/security.py:77-82 | an authentic POST whose event the status test cannot walk is answered 403 "Signature validation error", with nothing sent |
| Views.EmptyEntryCrashesToForbidden | app/views.py:43-44 | an authentic `{"entry": []}` raises IndexError in the status test and is answered 403 "Signature validation error" |
| Views.ObjectlessMalformedIs500 | app/views.py:61-74 | an event with no `object` whose `messages` is a dict passes the status test and is answered 500, not 404 |
| Views.HandshakeIgnoresBody | app/views.py:120-123 | the GET route reads only the query arguments: no signature check, body or transport plays a part |

## Left out

- Logging: every `logging.*` call and the messages they write. The `checks` list in `is_valid_whatsapp_message` is modelled only for the exceptions its lookups raise (`WhatsAppUtils.IsValidWhatsAppMessage`); the values it logs are not.
- The network: `requests.post` is replaced by the `Transport` outcome given as a parameter. Exceptions out of `requests.post` that are not `RequestException`s are not modelled.
- HMAC-SHA256 internals: the digest is the function parameter `mac`. The constant-time behaviour of `compare_digest` is not modelled.
- Security.SignedRequestPasses: requires the digest to be 32 bytes, as SHA-256's is, because `mac` is otherwise arbitrary.
- Tamper detection (a body changed in one byte fails the check) rests on HMAC collision resistance, which an arbitrary `mac` does not have. Only its hex-level part is proved, in `Codecs.HexDigestInjective`.
- JSON text: `request.get_json()` parsing and `json.dumps` serialisation are not modelled. The parsed body is a `Json` value, or `None` where parsing raised. The envelope is a `Json` value, not its serialised string.
- JSON numbers are exact reals, and floating-point detail is not modelled.
- Flask: `request`, `jsonify`, `current_app`, routing, and 405 for other methods are not modelled. So is how Flask turns a `None` challenge body into a response. A view's answer is a `(body, status)` value, and query arguments are a map holding the first value of each name.
- Configuration loading (`app/config.py`, `app/__init__.py`, `run.py`, `wsgi.py`): the configuration is a `Config` record parameter.
- WhatsAppUtils.Upper: upper-cases ASCII letters only. Python's `str.upper` also maps non-ASCII letters, and some by more than one character.
- The `json.JSONDecodeError` handler in `handle_message` (app/views.py:69-71) cannot be reached, because nothing in its `try` parses JSON text. Every other exception in that `try` falls to the 500 handler, as modelled.
- `process_text_for_whatsapp` is modelled as the code defines it. `process_whatsapp_message` does not call it, because its call is commented out.
