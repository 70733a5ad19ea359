# matrix-webhook, modelled in Dafny

matrix-webhook is a bridge. An HTTP endpoint `POST /post/{token}` accepts a
webhook. It looks the token up in a registry parsed from the `KNOWN_TOKENS`
setting. It then posts the payload into the Matrix room registered for that
token, through an end-to-end-encrypting Matrix client. Multipart uploads become
image events; every other body becomes a text event.

This project models the two core files of the bridge.

- The webhook server (`src/WebhookServer.py`):
  - the token registry parser (`TokenRegistry`);
  - the set of rooms the client joins;
  - the choice of serialiser;
  - the decision logic of the POST handler: which of the seven outcomes a
    request gets, which room and sender it goes to, which text is sent, and
    which HTTP response answers it (`Gateway`).
- The Matrix client (`src/E2EEClient.py`):
  - the login branches and the credentials file;
  - the to-device verification dispatch (`Verification`);
  - the content of text and image events (`MessageContent`);
  - the one-time greeting;
  - the start-up sequence of `run` (`E2EE`).

The homeserver is not modelled. Every outbound call the client makes is
appended to a `trace` of `Call` values, and every answer the client acts on
is an input: the login answer, the upload answer, what the client knows of a
room's encryption, the SAS state of a transaction.

Shared modules:
- `Wrappers`: `Option`.
- `Bytes`: `bv8` bytes.
- `JsonValue`: JSON values with `Get`.
- `TextUtil`: Python's `str.strip`, `str.split`, `str.replace` and `"\n".join`
  as used by the code, with their laws.

Modules follow the source:
- `TokenRegistry`, `Gateway` and the class `Gateway.WebhookServer` model
  `WebhookServer.py`.
- `Verification`, `MessageContent`, `E2EE` and the class `E2EE.E2EEClient`
  model `E2EEClient.py`.
- `MatrixTypes` holds the records both files share.

Loops in the source are loops here:
- the parser loop (`ParseKnownTokens`);
- the join-set loop (`GetKnownRooms`);
- the nested part-collection loop of the JSON extraction (`CollectParts`);
- the join loop of `run` (`JoinAll`).

The first and third loops are proved equal to a recursive specification
function (`ParseSpec`, `MessageParts`), and the properties the code promises
are proved about those functions. The join-set loop is proved equal to a set
comprehension (`KnownRooms`). The join loop is proved to make one join call
per room of the join-set, each room exactly once.

## Model

| member | source | states |
|---|---|---|
| TokenRegistry.ParseKnownTokens | src/WebhookServer.py:19-46 | the loop over the groups builds exactly the registry the verdict fold defines: an empty setting gives an empty map, and blank, malformed (fewer than three comma fields) and incomplete groups are skipped |
| TokenRegistry.LastWins | src/WebhookServer.py:42 | a token is registered iff some group accepts it, and its entry is the one from the last group that accepts it (later duplicates overwrite earlier ones) |
| TokenRegistry.ParsedLastWins | src/WebhookServer.py:27-42 | on a whole setting: a token is in the registry iff some group of the setting is accepted for it, with the entry of the last such group |
| TokenRegistry.ParsedEntriesWellFormed | src/WebhookServer.py:28-42 | every registered entry has a non-empty, whitespace-trimmed token, room and app name; the token and the room contain no comma, no space and no newline; the entry comes from a group of the setting |
| TokenRegistry.AcceptedFromThreeFields | src/WebhookServer.py:28-42 | an accepted group is the stripped text of three comma-joined fields (the first two comma-free), and the verdict's token, room and app name are those fields stripped and non-empty |
| TokenRegistry.GroupRoundTrip | src/WebhookServer.py:28-42 | a well-formed entry written as `token,room,app_name` is parsed back to the same token and entry |
| TokenRegistry.NoCommaMalformed | src/WebhookServer.py:32-35 | a non-blank group without a comma is rejected as malformed |
| TokenRegistry.NewlineIsSpace | src/WebhookServer.py:27 | newlines and spaces separate groups alike: replacing every newline by a space does not change the registry |
| TokenRegistry.ConfigRoundTrip | src/WebhookServer.py:19-46 | a list of well-formed entries written one group each, separated by spaces or by newlines, parses to the map those entries give, later entries winning |
| TokenRegistry.SpaceEndsDisplayName | src/WebhookServer.py:27-35 | an app name cannot contain a space: in `token,room,First Second`, where the word after the space has no comma, space or newline, that word becomes a group of its own and is rejected as malformed, and only `First` is registered as the name |
| TokenRegistry.ParsedJoinSet | src/WebhookServer.py:48-53 | a room is joined iff it is the admin room or the room of the last accepted group of some token; a room named only by an overridden duplicate is not joined |
| Gateway.WebhookServer.constructor | src/WebhookServer.py:13-17 | the server's registry is the parse of the `KNOWN_TOKENS` setting |
| Gateway.WebhookServer.GetKnownRooms | src/WebhookServer.py:48-53 | the loop yields the admin room together with the room of every registered token |
| Gateway.FormatMessage | src/WebhookServer.py:55-59 | a rendering exists iff the format is `json` or `yaml`; it carries the data and the unicode flag, and it is a JSON dump iff the format is `json`; any other format gives `None` |
| Gateway.Respond | src/WebhookServer.py:77-178 | the status is 200 iff the outcome hands the message to the client (an image or a text to send; see the `Gateway.Respond` line under Left out for a client that has not logged in yet); the CORS headers come with the text success only; the body is missing only on a 500 (a body that is not UTF-8, or an `image`/`file` field that is not a file) |
| Gateway.WebhookServer.PostHook | src/WebhookServer.py:68-178 | the handler, step by step, reaches the outcome the decision function defines and answers with the response that outcome gives |
| Gateway.CollectParts | src/WebhookServer.py:136-146 | the nested loops collect exactly the part list defined item by item: each dict item's `content` string, or the `text` strings of the dict segments of a `content` list |
| Gateway.MessagePartsAppend | src/WebhookServer.py:137-146 | collecting the parts of a concatenation gives the parts of each half, in order |
| Gateway.MessagePartsFrom | src/WebhookServer.py:137-146 | every collected part comes from some item: either that item's `content` string or the `text` of one of its segments |
| Gateway.SegmentTextsFrom | src/WebhookServer.py:144-146 | every collected segment text is the `text` string of some dict segment |
| Gateway.JoinPartsLines | src/WebhookServer.py:147-148 | the joined text has no leading or trailing whitespace; when the parts are trimmed and have no newline, splitting the joined text at newlines gives back exactly the non-empty parts, or the text is empty when there are none |
| Gateway.TokenCheckedFirst | src/WebhookServer.py:77-111 | the answer is "Token mismatch" iff the token is unknown and the request is multipart or has a decodable body; an unknown token never gets past the check (it gives the mismatch or the decoding failure) |
| Gateway.SentOnlyToRegisteredRoom | src/WebhookServer.py:95-172 | whatever is sent goes to the room, and under the app name, registered for the request's token |
| Gateway.UnsupportedFormatAfterToken | src/WebhookServer.py:105-115 | the 415 outcome happens iff the request is not multipart, its body decodes, its token is known and the configured format is not `raw`, `json` or `yaml` |
| Gateway.MultipartIgnoresFormat | src/WebhookServer.py:77-103 | a multipart request's outcome depends neither on the message format, nor on the unicode setting, nor on the request body or its JSON |
| Gateway.MultipartFileOutcome | src/WebhookServer.py:81-103 | with a known token: "No file field" iff neither `image` nor `file` is truthy; an uploaded `image` file is sent with its bytes, with `upload.bin` and `application/octet-stream` when it has no name or type; the caption is the truthy `caption` field |
| Gateway.RawIsVerbatim | src/WebhookServer.py:105-172 | in `raw` mode the decoded body is sent unchanged |
| Gateway.JsonMessageExtraction | src/WebhookServer.py:129-166 | in `json` mode, with a `message` key: a string is sent as it is; a list with collectable parts is sent as their newline-joined, stripped text; a list without any is rendered as JSON; another non-null value is rendered as JSON; `null` renders the whole document |
| Gateway.WholeDocumentRendered | src/WebhookServer.py:120-157 | in `yaml` mode, and in `json` mode without a `message` key, the rendering of the parsed JSON document (or of the form when the body is not JSON) is sent |
| TextUtil.StripIsTrimmedSlice | src/WebhookServer.py:28 | `strip` returns a slice of the input with only whitespace cut off at each end and no whitespace left at either end |
| TextUtil.StripIdempotent | src/WebhookServer.py:28-32 | stripping twice is stripping once |
| TextUtil.JoinSplit | src/WebhookServer.py:27 | joining the pieces of a split with the separator gives back the string |
| TextUtil.SplitJoin | src/WebhookServer.py:27 | splitting a join of separator-free pieces gives back the pieces |
| TextUtil.SplitMax2Law | src/WebhookServer.py:32 | a split with at most two cuts gives one to three pieces that join back to the input, and every piece but the last is comma-free |
| TextUtil.SplitMax2Three | src/WebhookServer.py:32-33 | there are three pieces iff the text contains the separator at least twice |
| TextUtil.ReplaceCharAt | src/WebhookServer.py:27 | replacing a character changes exactly its occurrences and nothing else |
| Verification.RequestAnswered | src/E2EEClient.py:127-141 | a verification request is answered by one `ready` to-device message to the sender's requesting device; it carries the request's transaction id and methods and this client's device id, and the requesting device is recorded |
| Verification.DoneToRecordedDevice | src/E2EEClient.py:143-154 | a `done` event is answered by one `done` message with the transaction id, addressed to the recorded device; the record is unchanged |
| Verification.StartNeedsEmoji | src/E2EEClient.py:156-165 | a start without emoji is ignored; with emoji the verification is accepted |
| Verification.KeyAndMac | src/E2EEClient.py:173-190 | a key event confirms the short auth string; a MAC event sends the SAS MAC message, or nothing when the SAS reports a protocol error |
| Verification.OneCallAtMost | src/E2EEClient.py:120-195 | each event causes at most one call; only an answered request changes the recorded device; cancels, unknown types and other events cause nothing |
| Verification.LastRequestRecorded | src/E2EEClient.py:140 | after a sequence of events the recorded device is that of the last answered request, or the initial one when none was answered |
| Verification.DoneAnswersLastRequest | src/E2EEClient.py:140-154 | a `done` goes to the device of the last answered request, whatever came in between |
| MessageContent.TextContentLaws | src/E2EEClient.py:215-227 | a text event is `m.text` and its body ends with the message. The body carries the `**sender** says:` prefix and markdown line break iff DISPLAY_APP_NAME is `True`. `format` and `formatted_body` (the markdown rendering of the whole body) are present iff USE_MARKDOWN is `True`. There are no other keys |
| MessageContent.SendMessageLaws | src/E2EEClient.py:205-234 | without a client nothing is sent; otherwise an optional 3-second full-state sync, then one room send of the text event to the room with unverified devices ignored |
| MessageContent.EncryptedImage | src/E2EEClient.py:256-310 | when an encrypted room's upload succeeds (an unknown room counts as encrypted), the only upload is of the ciphertext as an opaque blob; the event has a `file` object (version `v2`, the upload's URI and the key material) and no top-level `url`; size and mimetype are the original file's |
| MessageContent.ImageUploads | src/E2EEClient.py:256-327 | for every client, encryption result and upload answer: an upload happens iff there is a client and the file can be sent (an unencrypted room, or an encryptable attachment); into an encrypted room it is of the ciphertext only, as `application/octet-stream` with the ciphertext's length, and elsewhere of the original bytes with their type and length |
| MessageContent.PlainImage | src/E2EEClient.py:311-333 | in an unencrypted room the original bytes are uploaded with their type; the event has a top-level `url` and no `file` object |
| MessageContent.ImageText | src/E2EEClient.py:299-348 | an image event goes to the room as an `m.room.message` with unverified devices ignored. Its body is the caption, or the filename when there is no caption, and never has the sender prefix. It has `formatted_body` iff USE_MARKDOWN is `True` and there is a caption or a prefix; that field then renders the prefix followed by the caption or filename |
| MessageContent.ImageNotSent | src/E2EEClient.py:260-327 | no image event is sent when the upload fails, when an encrypted room has no attachment encryption, or when there is no client |
| E2EE.SslFlagsDisagreeAsWritten | src/E2EEClient.py:68-94 | as written, with MATRIX_SSLVERIFY set to `False`, the first login turns certificate checking off and the stored-credentials login turns it on |
| E2EE.SslFlagsAgree | src/E2EEClient.py:68-94 | with the corrected flag both logins check certificates exactly when MATRIX_SSLVERIFY is `True` |
| E2EE.StoredSessionsAgree | src/E2EEClient.py:88-95 | the corrected restored client equals the one the code builds iff MATRIX_SSLVERIFY is `True` or empty; otherwise they differ only in the certificate flag, which the code turns on and the correction leaves off |
| E2EE.LoginLaws | src/E2EEClient.py:54-112 | a password login happens iff there is no credentials file. If it fails, the program exits with status 1 and stores nothing. If it succeeds, the server, user, device and token are stored. A stored file with an existing client does nothing; without a client it restores that login, with the corrected certificate flag. Whenever no exit happens, there is a client and stored credentials |
| E2EE.E2EEClient.constructor | src/E2EEClient.py:26-40 | the credentials file is `<store path>/credentials.json`; there is no client, no greeting sent and an empty recorded device |
| E2EE.E2EEClient.WriteDetailsToDisk | src/E2EEClient.py:42-52 | the stored record is the homeserver with the login's user, device and token |
| E2EE.E2EEClient.LoginFirstTime | src/E2EEClient.py:54-79 | one password login with the device name; on success the client has the login's user and device and the credentials are stored; on failure exit status 1 and nothing stored |
| E2EE.E2EEClient.LoginWithStoredConfig | src/E2EEClient.py:81-101 | with a client: nothing happens; without stored credentials: the file cannot be opened and the method raises; otherwise a client for the stored user and device, with the corrected certificate flag, and one restore-login call |
| E2EE.E2EEClient.Login | src/E2EEClient.py:103-112 | client, stored credentials, calls and exit status are those the login function defines (and `LoginLaws` proves about) |
| E2EE.E2EEClient.ToDeviceCallback | src/E2EEClient.py:120-195 | the recorded device and the calls are those the reaction function defines (and the Verification lemmas prove about) |
| E2EE.E2EEClient.SendMessage | src/E2EEClient.py:205-234 | the calls are those `SendMessageLaws` describes; it raises iff there is no client |
| E2EE.E2EEClient.SendImage | src/E2EEClient.py:237-350 | the calls are those the image lemmas describe; every failure stops the method quietly |
| E2EE.E2EEClient.ImageContent | src/E2EEClient.py:299-341 | the event built field by field is the image event the lemmas describe |
| E2EE.GreetingGoesToAdminRoom | src/E2EEClient.py:200-203 | the first sync sends the greeting naming the device to the admin room as `Webhook server`; once sent, nothing more |
| E2EE.GreetingAtMostOnce | src/E2EEClient.py:197-203 | any number of syncs sends the greeting at most once, and not at all when it was already sent |
| E2EE.E2EEClient.SyncCallback | src/E2EEClient.py:197-203 | the flag is set, and the greeting is sent only when the flag was clear before |
| E2EE.E2EEClient.JoinAll | src/E2EEClient.py:361-362 | one join call per room of the join-set: every room exactly once |
| E2EE.E2EEClient.Run | src/E2EEClient.py:352-366 | login (stopping at an exit). Then the key upload when the client asks for one, a join of every room of the join-set exactly once, the joined-rooms query, and the endless sync with a 300-second timeout and full state |

## Left out

- Networking, the aiohttp application and its routing are not modelled. This includes `WebhookServer.run` and the `[a-zA-Z0-9]+` token pattern of the route. The token is an input.
- `_get_index` is not modelled: it is a constant response with no logic.
- `main.py` and `seedb.py` are not part of this model.
- The homeserver, the nio client and its transport are not modelled. Each call is recorded in a trace, and each answer is an input.
- Transport exceptions inside `send_message` and `room_send` are not modelled.
- Gateway.Respond: the 200 for `TextSent` assumes `send_message` returned. Before the client has logged in, `self.client` is `None`, so `send_message` raises, the exception leaves `_post_hook`, and the code answers 500 with nothing sent. `E2EE.E2EEClient.SendMessage` states that it raises exactly then, but the gateway does not take it into account. The image path needs no such note, because `send_image` catches every exception.
- Callback registration in `run` is not modelled; the callbacks are methods called directly.
- `_message_callback` only logs, and is not modelled.
- Cryptography is not modelled: `encrypt_attachment` is an input (`None` when none of the three imports succeeds), and so is the SAS state (`key_verifications`, `get_mac`).
- `get_emoji` is not modelled. Its result only feeds a print, but it is called before `confirm_short_auth_string`; the model assumes it does not raise. If it raised, the confirmation would be skipped.
- Markdown rendering is a function parameter, so its output is unconstrained.
- The exception path that drops `format` when markdown fails is not modelled.
- The JSON and YAML serialisers are symbolic. A rendering is the value, the serialiser and the unicode flag, not its text.
- The `str(...)` fallback after a failed `json.dumps` is not modelled. Every JSON value serialises, so it cannot be reached.
- The JSON floats are kept as literals.
- JSON objects, and the `request.post()` form (a multidict), are modelled as maps, so key order is not kept. `json.dumps` is called without `sort_keys` and writes keys in the order the request gave them, so two bodies that differ only in key order render to the same `Rendered` value here but to different texts in the code. `yaml.dump` sorts keys, so only the JSON rendering is affected. For a repeated form key, a map keeps a single value.
- Logging, `print` and `sys.exit` are not modelled; the exit becomes an exit status.
- Environment variables are parameters. A missing variable (a `KeyError`) is not modelled.
- The file system is reduced to the `stored` field. The credentials file exists iff `stored` is `Some`, and the creation of the store directory is not modelled.
- `request.read()` is modelled by its decoded text, or `None` when the body is not UTF-8.
- `request.post()` and `request.json()` are modelled as the parsed form and JSON. The JSON is `None` when the body is not JSON, and JSON `null` is kept as a value.
- Reading the uploaded file (`file.read()` and its fallback) is modelled by the field's bytes.
- A text value under `image` or `file` gives the `TextInFileField` outcome: a 500 with aiohttp's own error page, because a string has neither `.file` nor `read`. The error page itself is not modelled.
- A `caption` field that is an uploaded file is kept in the outcome as it is. `send_image` is modelled with text captions only.
- A multipart part without a filename and with a non-text content type is not modelled. aiohttp delivers such a part as raw bytes, and `FormValue` has only uploaded files and text. Under `image` or `file` such a part would fail like text does (a 500). As a caption it would be passed on as bytes.
- StoredSession: the restored client checks certificates exactly when MATRIX_SSLVERIFY is `True`, the corrected flag of the Findings row, not `bool(MATRIX_SSLVERIFY)` as at src/E2EEClient.py:94. For a setting that is neither `True` nor empty, the code's client checks certificates and the model's does not (`StoredSessionAsWritten` and `StoredSessionsAgree` state the code's client and the difference).
- LoginSpec: inherits the corrected certificate flag of `StoredSession` for the restored client.
- LoginLaws: states the restored client with the corrected certificate flag of `StoredSession`.
- LoginWithStoredConfig: builds the restored client with the corrected certificate flag of `StoredSession`.
- Login: inherits the corrected certificate flag of `StoredSession` through `LoginSpec`.
- Run: inherits the corrected certificate flag of `StoredSession` through `LoginSpec`.
- `E2EE.E2EEClient.SendImage`: a tuple answer from `upload` is modelled by its first element, which is the input.
- `E2EE.E2EEClient.Run`: the order in which the join-set is iterated is ghost (any order the set allows).
- `E2EE.E2EEClient.LoginFirstTime`: the client's user and device after the login are taken from the login answer, standing for nio updating its own fields.
- Two behaviours of the code are modelled as written. A display name containing a space is cut at the space, because groups are split at every space (`SpaceEndsDisplayName`). A body that is not UTF-8 fails with a 500 before the token is checked, even for an unknown token (`TokenCheckedFirst`).

## Findings

| source | as written | input that shows it | evidently intended | confidence | as-written member | corrected member |
|---|---|---|---|---|---|---|
| src/E2EEClient.py:94 | the stored-credentials login sets `ssl` to the truthiness of the MATRIX_SSLVERIFY string, which is true for any non-empty text | MATRIX_SSLVERIFY=`False`: the first login (line 68) checks no certificates, every later login does | `ssl` is `MATRIX_SSLVERIFY == 'True'`, as in line 68 | not executed | E2EE.SslFlagsDisagreeAsWritten | E2EE.SslFlagsAgree |
