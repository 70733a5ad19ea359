/** The webhook endpoint `POST /post/{token}`: which requests are refused
    and with which status, and what is handed to the Matrix client for the
    others. Parsing of the HTTP request itself (form decoding, JSON
    decoding) happens before this model: its results are fields of
    `Request`. */
module Gateway {
  import opened Wrappers
  import opened Bytes
  import opened JsonValue
  import opened TextUtil
  import opened TokenRegistry

  /** A value of the parsed form, as `request.post()` gives it. */
  datatype FormValue =
    | FileField(content: seq<Byte>, filename: Option<string>, contentType: Option<string>)
    | TextField(text: string)

  /** Python truthiness of a form value: a file field is always true, a
      text field when it is not empty. */
  predicate Truthy(v: FormValue) {
    v.FileField? || v.text != ""
  }

  /** One request, as far as the handler looks at it. */
  datatype Request = Request(
    token: string,                  // the `{token}` path segment
    contentType: string,            // `request.content_type`
    form: map<string, FormValue>,   // `request.post()`
    body: Option<string>,           // the body decoded as UTF-8; `None` when it is not valid UTF-8
    json: Option<Json>)             // `request.json()`; `None` when the body is not JSON

  /** The two serialisers of `_format_message`, both with indent 2. */
  datatype Serialiser = JsonDump | YamlDump

  /** The text handed to `send_message`: either a string used as it is or
      the serialisation of a value (non-ASCII characters kept exactly when
      `allowUnicode`). The serialisers are not modelled further. */
  datatype Payload =
    | Verbatim(text: string)
    | Rendered(serialiser: Serialiser, allowUnicode: bool, value: Json)

  /** `_format_message`: json and yaml render the data; any other format
      gives `None` (the Python function falls off its end). */
  function FormatMessage(format: string, allowUnicode: bool, data: Json): (r: Option<Payload>)
    ensures r.Some? <==> format == "json" || format == "yaml"
    ensures r.Some? ==> r.value.Rendered? && r.value.value == data && r.value.allowUnicode == allowUnicode
    ensures r.Some? ==> (r.value.serialiser == JsonDump <==> format == "json")
  {
    if format == "json" then Some(Rendered(JsonDump, allowUnicode, data))
    else if format == "yaml" then Some(Rendered(YamlDump, allowUnicode, data))
    else None
  }

  /** What the `message` extraction produced: nothing (Python's `None`),
      a string, or some other value to be sent as its JSON dump. */
  datatype Extraction =
    | NotExtracted
    | ExtractedText(text: string)
    | ExtractedValue(value: Json)

  /** A JSON value held in `extracted_from_messages`: JSON null is
      Python's `None`, so it counts as nothing extracted. */
  function ValueExtraction(v: Json): (r: Extraction)
    ensures r.NotExtracted? <==> v == JNull
    ensures r.ExtractedValue? ==> r.value == v
    ensures !r.ExtractedText?
  {
    if v == JNull then NotExtracted else ExtractedValue(v)
  }

  /** The `text` strings of the segments of a `content` list, in order;
      segments that are not dictionaries or whose `text` is not a string
      are skipped. */
  function SegmentTexts(segs: seq<Json>): seq<string>
  {
    if segs == [] then []
    else
      var last := segs[|segs| - 1];
      SegmentTexts(segs[..|segs| - 1])
        + (match GetString(last, "text") case Some(t) => [t] case None => [])
  }

  /** The parts one item of the `message` list contributes: its `content`
      when that is a string, the segment texts when it is a list, nothing
      otherwise. */
  function ItemParts(item: Json): seq<string>
  {
    match Get(item, "content")
    case Some(JString(c)) => [c]
    case Some(JArray(segs)) => SegmentTexts(segs)
    case _ => []
  }

  /** The parts of all items, in order. */
  function MessageParts(items: seq<Json>): seq<string>
  {
    if items == [] then []
    else MessageParts(items[..|items| - 1]) + ItemParts(items[|items| - 1])
  }

  /** The parts joined by newlines, empty parts dropped, then stripped. */
  function JoinParts(parts: seq<string>): string
  {
    Strip(Join(NonEmpty(parts), '\n'))
  }

  /** The value of the `message` key of a JSON document: a string is used
      as it is; a list yields its joined parts, or the list itself when it
      has none; any other value is passed on. */
  function ExtractMessage(doc: Json): Extraction
  {
    match Get(doc, "message")
    case None => NotExtracted
    case Some(JString(s)) => ExtractedText(s)
    case Some(JArray(items)) =>
      if MessageParts(items) != [] then ExtractedText(JoinParts(MessageParts(items)))
      else ExtractedValue(JArray(items))
    case Some(v) => ValueExtraction(v)
  }

  /** `dict(await request.post())` as a JSON document. Outside multipart
      requests aiohttp decodes only url-encoded forms, whose values are all
      text. */
  function FormDocument(form: map<string, FormValue>): Json
  {
    JObject(map k | k in form && form[k].TextField? :: JString(form[k].text))
  }

  /** The message sent for a known token and a format among raw, json and
      yaml. */
  function MessageFor(format: string, allowUnicode: bool, body: string, req: Request): Payload
    requires format == "raw" || format == "json" || format == "yaml"
  {
    if format == "raw" then Verbatim(body)
    else
      var document := if req.json.Some? then req.json.value else FormDocument(req.form);
      var extracted := if format == "json" && req.json.Some? then ExtractMessage(req.json.value) else NotExtracted;
      match extracted
      case NotExtracted => FormatMessage(format, allowUnicode, document).value
      case ExtractedText(t) => Verbatim(t)
      case ExtractedValue(v) => Rendered(JsonDump, allowUnicode, v)
  }

  /** `form.get('image') or form.get('file')`, kept only when truthy. */
  function FileFieldOf(form: map<string, FormValue>): (r: Option<FormValue>)
    ensures r.Some? <==> ("image" in form && Truthy(form["image"])) || ("file" in form && Truthy(form["file"]))
    ensures r.Some? ==> Truthy(r.value)
    ensures "image" in form && Truthy(form["image"]) ==> r == Some(form["image"])
    ensures !("image" in form && Truthy(form["image"])) && r.Some? ==> r == Some(form["file"])
  {
    if "image" in form && Truthy(form["image"]) then Some(form["image"])
    else if "file" in form && Truthy(form["file"]) then Some(form["file"])
    else None
  }

  /** `form.get('caption') or None`. */
  function CaptionOf(form: map<string, FormValue>): (r: Option<FormValue>)
    ensures r.Some? <==> "caption" in form && Truthy(form["caption"])
    ensures r.Some? ==> r.value == form["caption"]
  {
    if "caption" in form && Truthy(form["caption"]) then Some(form["caption"]) else None
  }

  /** `getattr(field, name, default)`. */
  function AttributeOr(attribute: Option<string>, default: string): (r: string)
    ensures attribute.Some? ==> r == attribute.value
    ensures attribute.None? ==> r == default
  {
    match attribute
    case Some(a) => a
    case None => default
  }

  const MessageFormats: seq<string> := ["raw", "json", "yaml"]

  /** How the handler ends. */
  datatype Outcome =
    | TokenMismatch                  // 404
    | NoFileField                    // 400
    | UnsupportedFormat              // 415
    | UndecodableBody                // 500: the body is not valid UTF-8
    | TextInFileField                // 500: the `image`/`file` field is text, which has no bytes to read
    | ImageSent(content: seq<Byte>, filename: string, mimetype: string,
                room: string, sender: string, caption: Option<FormValue>)
    | TextSent(message: Payload, room: string, sender: string)

  predicate IsMultipart(req: Request) {
    StartsWith(req.contentType, "multipart/")
  }

  /** The decision `_post_hook` takes for a request, given the registry
      and the `MESSAGE_FORMAT` and `ALLOW_UNICODE` settings. */
  function PostHookSpec(known: map<string, TokenEntry>, messageFormat: string,
                        allowUnicodeSetting: string, req: Request): Outcome
  {
    if IsMultipart(req) then
      if req.token !in known then TokenMismatch
      else
        match FileFieldOf(req.form)
        case None => NoFileField
        case Some(TextField(_)) => TextInFileField
        case Some(FileField(bytes, filename, mimetype)) =>
          ImageSent(bytes, AttributeOr(filename, "upload.bin"), AttributeOr(mimetype, "application/octet-stream"),
                    known[req.token].room, known[req.token].appName, CaptionOf(req.form))
    else if req.body.None? then UndecodableBody
    else if req.token !in known then TokenMismatch
    else if messageFormat !in MessageFormats then UnsupportedFormat
    else
      TextSent(MessageFor(messageFormat, allowUnicodeSetting == "True", req.body.value, req),
               known[req.token].room, known[req.token].appName)
  }

  /** The HTTP answer: status, JSON body (`None` for aiohttp's own error
      page) and whether the CORS headers are set. */
  datatype Response = Response(status: int, body: Option<Json>, cors: bool)

  function ErrorBody(message: string): Option<Json> {
    Some(JObject(map["error" := JString(message)]))
  }

  function Respond(outcome: Outcome): (r: Response)
    ensures r.status == 200 <==> outcome.ImageSent? || outcome.TextSent?
    ensures r.cors <==> outcome.TextSent?
    ensures r.body.None? <==> r.status == 500
  {
    match outcome
    case TokenMismatch => Response(404, ErrorBody("Token mismatch"), false)
    case NoFileField => Response(400, ErrorBody("No file field"), false)
    case UnsupportedFormat => Response(415, ErrorBody("Gateway configured with unknown message format"), false)
    case UndecodableBody => Response(500, None, false)
    case TextInFileField => Response(500, None, false)
    case ImageSent(_, filename, _, _, _, _) =>
      Response(200, Some(JObject(map["success" := JBool(true), "sent_as" := JString("image"),
                                     "filename" := JString(filename)])), false)
    case TextSent(_, _, _) => Response(200, Some(JObject(map["success" := JBool(true)])), true)
  }

  /** The `message` extraction loop: the `content` strings and the `text`
      strings of `content` lists, in order. */
  method CollectParts(items: seq<Json>) returns (parts: seq<string>)
    ensures parts == MessageParts(items)
  {
    parts := [];
    for i := 0 to |items|
      invariant parts == MessageParts(items[..i])
    {
      assert items[..i + 1][..i] == items[..i];
      var item := items[i];
      if item.JObject? && "content" in item.fields {
        var c := item.fields["content"];
        if c.JString? {
          parts := parts + [c.s];
        } else if c.JArray? {
          for j := 0 to |c.items|
            invariant parts == MessageParts(items[..i]) + SegmentTexts(c.items[..j])
          {
            assert c.items[..j + 1][..j] == c.items[..j];
            var seg := c.items[j];
            if seg.JObject? && "text" in seg.fields && seg.fields["text"].JString? {
              parts := parts + [seg.fields["text"].s];
            }
          }
          assert c.items[..|c.items|] == c.items;
        }
      }
    }
    assert items[..|items|] == items;
  }

  /** The webhook server: the registry read once at start-up. */
  class WebhookServer {
    const knownTokens: map<string, TokenEntry>

    /** `__init__`: the registry is parsed from `KNOWN_TOKENS`. */
    constructor (knownTokensSetting: string)
      ensures knownTokens == ParseSpec(knownTokensSetting)
    {
      var parsed := ParseKnownTokens(knownTokensSetting);
      knownTokens := parsed;
    }

    /** `get_known_rooms`: the admin room and every registered room. */
    method GetKnownRooms(adminRoom: string) returns (rooms: set<string>)
      ensures rooms == KnownRooms(adminRoom, knownTokens)
    {
      rooms := {adminRoom};
      var remaining := knownTokens.Keys;
      while remaining != {}
        invariant remaining <= knownTokens.Keys
        invariant rooms == {adminRoom} + set t | t in knownTokens && t !in remaining :: knownTokens[t].room
        decreases remaining
      {
        var token :| token in remaining;
        rooms := rooms + {knownTokens[token].room};
        remaining := remaining - {token};
      }
    }

    /** `_post_hook`: the checks in the order the handler makes them, then
        the message, built step by step. */
    method PostHook(messageFormat: string, allowUnicodeSetting: string, req: Request)
      returns (outcome: Outcome, response: Response)
      ensures outcome == PostHookSpec(knownTokens, messageFormat, allowUnicodeSetting, req)
      ensures response == Respond(outcome)
    {
      var allowUnicode := allowUnicodeSetting == "True";
      var token := req.token;
      if IsMultipart(req) {
        if token !in knownTokens {
          outcome := TokenMismatch;
        } else {
          var fileField := FileFieldOf(req.form);
          if fileField.None? {
            outcome := NoFileField;
          } else if fileField.value.TextField? {
            outcome := TextInFileField;
          } else {
            var filename := AttributeOr(fileField.value.filename, "upload.bin");
            var mimetype := AttributeOr(fileField.value.contentType, "application/octet-stream");
            var caption := CaptionOf(req.form);
            outcome := ImageSent(fileField.value.content, filename, mimetype,
                                 knownTokens[token].room, knownTokens[token].appName, caption);
          }
        }
        response := Respond(outcome);
        return;
      }
      if req.body.None? {
        outcome := UndecodableBody;
        response := Respond(outcome);
        return;
      }
      var data := Verbatim(req.body.value);
      if token !in knownTokens {
        outcome := TokenMismatch;
        response := Respond(outcome);
        return;
      }
      if messageFormat !in MessageFormats {
        outcome := UnsupportedFormat;
        response := Respond(outcome);
        return;
      }
      var extracted := NotExtracted;
      if messageFormat != "raw" {
        var document := FormDocument(req.form);
        if req.json.Some? {
          document := req.json.value;
        }
        if messageFormat == "json" && req.json.Some? && req.json.value.JObject?
           && "message" in req.json.value.fields {
          var messages := req.json.value.fields["message"];
          if messages.JString? {
            extracted := ExtractedText(messages.s);
          } else if messages.JArray? {
            var parts := CollectParts(messages.items);
            if parts != [] {
              extracted := ExtractedText(JoinParts(parts));
            } else {
              extracted := ExtractedValue(messages);
            }
          } else {
            extracted := ValueExtraction(messages);
          }
        }
        data := FormatMessage(messageFormat, allowUnicode, document).value;
        if extracted.ExtractedText? {
          data := Verbatim(extracted.text);
        } else if extracted.ExtractedValue? {
          data := Rendered(JsonDump, allowUnicode, extracted.value);
        }
      }
      outcome := TextSent(data, knownTokens[token].room, knownTokens[token].appName);
      response := Respond(outcome);
    }
  }

  /** The token is checked before anything is sent: an unknown token is
      answered 404 on both paths, except that a body that is not UTF-8 has
      already failed with 500 on the non-multipart path, where decoding
      comes first. */
  lemma TokenCheckedFirst(known: map<string, TokenEntry>, messageFormat: string,
                          allowUnicodeSetting: string, req: Request)
    ensures (PostHookSpec(known, messageFormat, allowUnicodeSetting, req) == TokenMismatch)
            <==> (req.token !in known && (IsMultipart(req) || req.body.Some?))
    ensures req.token !in known ==>
              PostHookSpec(known, messageFormat, allowUnicodeSetting, req) in {TokenMismatch, UndecodableBody}
  {
  }

  /** Something is sent only for a registered token, and then to the
      token's room under the token's display name. */
  lemma SentOnlyToRegisteredRoom(known: map<string, TokenEntry>, messageFormat: string,
                                 allowUnicodeSetting: string, req: Request)
    ensures var o := PostHookSpec(known, messageFormat, allowUnicodeSetting, req);
            (o.ImageSent? || o.TextSent?) ==>
              req.token in known && o.room == known[req.token].room && o.sender == known[req.token].appName
  {
  }

  /** 415 comes only after the token check succeeded, and only for a
      format outside raw, json and yaml. */
  lemma UnsupportedFormatAfterToken(known: map<string, TokenEntry>, messageFormat: string,
                                    allowUnicodeSetting: string, req: Request)
    ensures (PostHookSpec(known, messageFormat, allowUnicodeSetting, req) == UnsupportedFormat)
            <==> (!IsMultipart(req) && req.body.Some? && req.token in known && messageFormat !in MessageFormats)
  {
  }

  /** A multipart request is decided by the token and the form alone:
      neither the message format, nor the Unicode setting, nor the body
      text or its JSON reading matter. */
  lemma MultipartIgnoresFormat(known: map<string, TokenEntry>, format1: string, unicode1: string,
                               format2: string, unicode2: string, req: Request,
                               body: Option<string>, json: Option<Json>)
    requires IsMultipart(req)
    ensures PostHookSpec(known, format1, unicode1, req)
            == PostHookSpec(known, format2, unicode2, req.(body := body, json := json))
  {
  }

  /** For a known token on the multipart path: 400 exactly when neither
      `image` nor `file` holds a truthy value; otherwise the file of
      `image` (preferred) or `file` is sent, named `upload.bin` when it has
      no name and typed `application/octet-stream` when it has no type. */
  lemma MultipartFileOutcome(known: map<string, TokenEntry>, messageFormat: string,
                             allowUnicodeSetting: string, req: Request)
    requires IsMultipart(req) && req.token in known
    ensures var o := PostHookSpec(known, messageFormat, allowUnicodeSetting, req);
            && (o == NoFileField <==> !("image" in req.form && Truthy(req.form["image"]))
                                      && !("file" in req.form && Truthy(req.form["file"])))
            && ("image" in req.form && req.form["image"].FileField? ==>
                  o.ImageSent? && o.content == req.form["image"].content
                  && (req.form["image"].filename.None? ==> o.filename == "upload.bin")
                  && (req.form["image"].contentType.None? ==> o.mimetype == "application/octet-stream"))
            && (o.ImageSent? ==> o.caption == CaptionOf(req.form))
  {
  }

  /** In raw format the decoded body is sent unchanged. */
  lemma RawIsVerbatim(known: map<string, TokenEntry>, allowUnicodeSetting: string, req: Request)
    requires !IsMultipart(req) && req.body.Some? && req.token in known
    ensures PostHookSpec(known, "raw", allowUnicodeSetting, req)
            == TextSent(Verbatim(req.body.value), known[req.token].room, known[req.token].appName)
  {
  }

  /** The `message` extraction, for a json-format request whose body is a
      JSON object with a `message` key: a string is sent as it is; a list
      with parts is sent as its joined parts; a list without parts and any
      other non-null value are sent as their JSON dump, exactly as
      `_format_message` would render them; null falls back to the whole
      document. */
  lemma JsonMessageExtraction(known: map<string, TokenEntry>, allowUnicodeSetting: string,
                              req: Request, doc: Json)
    requires !IsMultipart(req) && req.body.Some? && req.token in known
    requires req.json == Some(doc) && doc.JObject? && "message" in doc.fields
    ensures var o := PostHookSpec(known, "json", allowUnicodeSetting, req);
            var m := doc.fields["message"];
            var unicode := allowUnicodeSetting == "True";
            && o.TextSent?
            && (m.JString? ==> o.message == Verbatim(m.s))
            && (m.JArray? && MessageParts(m.items) != [] ==> o.message == Verbatim(JoinParts(MessageParts(m.items))))
            && (m.JArray? && MessageParts(m.items) == [] ==> Some(o.message) == FormatMessage("json", unicode, m))
            && (!m.JString? && !m.JArray? && m != JNull ==> Some(o.message) == FormatMessage("json", unicode, m))
            && (m == JNull ==> Some(o.message) == FormatMessage("json", unicode, doc))
  {
  }

  /** Without extraction the whole document is rendered: in yaml format
      always, in json format when the body is not an object with a
      `message` key. The document is the JSON reading of the body, or the
      url-encoded form when the body is not JSON. */
  lemma WholeDocumentRendered(known: map<string, TokenEntry>, messageFormat: string,
                              allowUnicodeSetting: string, req: Request)
    requires !IsMultipart(req) && req.body.Some? && req.token in known
    requires messageFormat == "yaml"
             || (messageFormat == "json" && !(req.json.Some? && req.json.value.JObject? && "message" in req.json.value.fields))
    ensures var o := PostHookSpec(known, messageFormat, allowUnicodeSetting, req);
            var document := if req.json.Some? then req.json.value else FormDocument(req.form);
            o.TextSent? && Some(o.message) == FormatMessage(messageFormat, allowUnicodeSetting == "True", document)
  {
  }

  /** Splitting the parts of a sequence of items is splitting the items. */
  lemma {:induction false} MessagePartsAppend(a: seq<Json>, b: seq<Json>)
    ensures MessageParts(a + b) == MessageParts(a) + MessageParts(b)
    decreases |b|
  {
    if b != [] {
      var b' := b[..|b| - 1];
      assert (a + b)[..|a + b| - 1] == a + b';
      MessagePartsAppend(a, b');
    } else {
      assert a + b == a;
    }
  }

  /** Item `i` of `items` contributes the part `s`. */
  predicate ContributesAt(items: seq<Json>, i: int, s: string) {
    0 <= i < |items| && s in ItemParts(items[i])
  }

  /** A string is a part of a `message` list exactly when one of its items
      contributes it. */
  lemma {:induction false} MessagePartsFrom(items: seq<Json>, s: string)
    ensures s in MessageParts(items) <==> exists i :: ContributesAt(items, i, s)
    decreases |items|
  {
    if items != [] {
      var n := |items| - 1;
      var init := items[..n];
      MessagePartsFrom(init, s);
      assert MessageParts(items) == MessageParts(init) + ItemParts(items[n]);
      if s in MessageParts(init) {
        var i :| ContributesAt(init, i, s);
        assert ContributesAt(items, i, s);
      }
      if s in ItemParts(items[n]) {
        assert ContributesAt(items, n, s);
      }
      forall i | ContributesAt(items, i, s) && i < n
        ensures s in MessageParts(init)
      {
        assert ContributesAt(init, i, s);
      }
    }
  }

  /** Segment `j` of `segs` is a dictionary whose `text` is `s`. */
  predicate TextAt(segs: seq<Json>, j: int, s: string) {
    0 <= j < |segs| && GetString(segs[j], "text") == Some(s)
  }

  /** A string is a segment text exactly when some segment is a
      dictionary whose `text` is that string. */
  lemma {:induction false} SegmentTextsFrom(segs: seq<Json>, s: string)
    ensures s in SegmentTexts(segs) <==> exists j :: TextAt(segs, j, s)
    decreases |segs|
  {
    if segs != [] {
      var n := |segs| - 1;
      var init := segs[..n];
      SegmentTextsFrom(init, s);
      if s in SegmentTexts(init) {
        var j :| TextAt(init, j, s);
        assert TextAt(segs, j, s);
      }
      if GetString(segs[n], "text") == Some(s) {
        assert TextAt(segs, n, s);
      }
      forall j | TextAt(segs, j, s) && j < n
        ensures s in SegmentTexts(init)
      {
        assert TextAt(init, j, s);
      }
    }
  }

  /** The joined parts carry no whitespace at either end; when the parts
      themselves are trimmed and hold no newline, the text splits on
      newlines back into exactly the non-empty parts, in order. */
  lemma JoinPartsLines(parts: seq<string>)
    ensures Trimmed(JoinParts(parts))
    ensures (forall p :: p in parts ==> Trimmed(p) && '\n' !in p) ==>
              if NonEmpty(parts) == [] then JoinParts(parts) == ""
              else Split(JoinParts(parts), '\n') == NonEmpty(parts)
  {
    StripIsTrimmedSlice(Join(NonEmpty(parts), '\n'));
    if forall p :: p in parts ==> Trimmed(p) && '\n' !in p {
      var ne := NonEmpty(parts);
      JoinTrimmed(ne, '\n');
      StripTrimmed(Join(ne, '\n'));
      if ne != [] {
        SplitJoin(ne, '\n');
      }
    }
  }
}
