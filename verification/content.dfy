/** The room events the bridge sends: the `m.text` event of `send_message`
    and the `m.image` event of `send_image`, plain or with an encrypted
    attachment as in "Sending encrypted attachments" of the Matrix
    Client-Server API. Markdown rendering is a parameter, `markdown`. */
module MessageContent {
  import opened Wrappers
  import opened Bytes
  import opened JsonValue
  import opened MatrixTypes

  const HtmlFormat: string := "org.matrix.custom.html"
  const RoomMessage: string := "m.room.message"

  /** The sender prefix, present when DISPLAY_APP_NAME is `True`. */
  function SenderPrefix(displayAppName: string, sender: string): string
  {
    if displayAppName == "True" then "**" + sender + "** says:  \n" else ""
  }

  /** The `m.text` event: the prefixed message as `body`, and its markdown
      rendering as `formatted_body` when USE_MARKDOWN is `True`. */
  function TextContent(settings: Settings, markdown: string -> string, message: string, sender: string): Json
  {
    var text := SenderPrefix(settings.displayAppName, sender) + message;
    var content := map["msgtype" := JString("m.text"), "body" := JString(text)];
    if settings.useMarkdown == "True" then
      JObject(content["format" := JString(HtmlFormat)]["formatted_body" := JString(markdown(text))])
    else JObject(content)
  }

  /** The calls `send_message` makes: none when there is no client (the
      method raises), otherwise an optional sync and the `room_send`. */
  function SendMessageCalls(settings: Settings, markdown: string -> string, client: Option<Session>,
                            message: string, room: string, sender: string, sync: bool): seq<Call>
  {
    if client.None? then []
    else (if sync then [Sync(3000, true)] else [])
         + [RoomSend(room, RoomMessage, TextContent(settings, markdown, message, sender), true)]
  }

  /** `getattr(client.rooms.get(room), "encrypted", True)`: a room the
      client does not know counts as encrypted. */
  predicate IsEncryptedRoom(rooms: map<string, bool>, room: string) {
    room !in rooms || rooms[room]
  }

  /** Python truthiness of the caption. */
  predicate HasCaption(caption: Option<string>) {
    caption.Some? && caption.value != ""
  }

  /** `filename if not caption else caption`. */
  function ImageBody(filename: string, caption: Option<string>): string
  {
    if HasCaption(caption) then caption.value else filename
  }

  /** The fields shared by both kinds of image event. */
  function ImageFields(body: string, mimetype: string, size: nat): map<string, Json>
  {
    map["msgtype" := JString("m.image"), "body" := JString(body),
        "info" := JObject(map["mimetype" := JString(mimetype), "size" := JInt(size)])]
  }

  /** The `file` object of an encrypted attachment, version `v2`. */
  function FileObject(uri: string, attachment: EncryptedAttachment): Json
  {
    JObject(map["url" := JString(uri), "iv" := attachment.iv, "hashes" := attachment.hashes,
                "key" := attachment.key, "v" := JString("v2")])
  }

  /** The markdown part of an image event: added when USE_MARKDOWN is
      `True` and there is a caption or a prefix. */
  function WithImageFormatting(settings: Settings, markdown: string -> string, content: map<string, Json>,
                               prefix: string, filename: string, caption: Option<string>): Json
  {
    if settings.useMarkdown == "True" && (HasCaption(caption) || prefix != "") then
      JObject(content["format" := JString(HtmlFormat)]
                     ["formatted_body" := JString(markdown(prefix + ImageBody(filename, caption)))])
    else JObject(content)
  }

  /** The upload `send_image` makes: with an attachment (an encrypted
      room) the ciphertext as an opaque blob, otherwise the original bytes
      with their type. */
  function UploadCall(attachment: Option<EncryptedAttachment>, fileBytes: seq<Byte>,
                      filename: string, mimetype: string): Call
  {
    match attachment
    case Some(a) => Upload(a.ciphertext, "application/octet-stream", filename, |a.ciphertext|)
    case None => Upload(fileBytes, mimetype, filename, |fileBytes|)
  }

  /** The `m.image` event for an uploaded file: with an attachment a
      `file` object, otherwise a top-level `url`. */
  function ImageEvent(settings: Settings, markdown: string -> string, attachment: Option<EncryptedAttachment>,
                      uri: string, fileBytes: seq<Byte>, filename: string, mimetype: string,
                      sender: string, caption: Option<string>): Json
  {
    var fields := ImageFields(ImageBody(filename, caption), mimetype, |fileBytes|);
    var located := match attachment
                   case Some(a) => fields["file" := FileObject(uri, a)]
                   case None => fields["url" := JString(uri)];
    WithImageFormatting(settings, markdown, located, SenderPrefix(settings.displayAppName, sender), filename, caption)
  }

  /** The calls `send_image` makes, given what the client knows of the
      rooms, what `encrypt_attachment` gives (`None` when it cannot be
      imported) and the upload's answer. Any exception stops the method
      quietly, so the calls made so far are all there is. */
  function SendImageCalls(settings: Settings, markdown: string -> string, client: Option<Session>,
                          rooms: map<string, bool>, fileBytes: seq<Byte>, filename: string, mimetype: string,
                          room: string, sender: string, caption: Option<string>, sync: bool,
                          encryption: Option<EncryptedAttachment>, upload: UploadResult): seq<Call>
  {
    if client.None? then []
    else
      var synced := if sync then [Sync(3000, true)] else [];
      var encrypted := IsEncryptedRoom(rooms, room);
      if encrypted && encryption.None? then synced
      else
        var attachment := if encrypted then encryption else None;
        var sent := UploadCall(attachment, fileBytes, filename, mimetype);
        match upload
        case UploadError => synced + [sent]
        case Uploaded(uri) =>
          var event := ImageEvent(settings, markdown, attachment, uri, fileBytes, filename, mimetype, sender, caption);
          synced + [sent, RoomSend(room, RoomMessage, event, true)]
  }

  /** The text event: type `m.text`; the body is the message, preceded by
      `**sender** says:` and a markdown line break exactly when
      DISPLAY_APP_NAME is `True`; `format` and `formatted_body` (the
      markdown rendering of the whole body) are there exactly when
      USE_MARKDOWN is `True`, and no other key is. */
  lemma TextContentLaws(settings: Settings, markdown: string -> string, message: string, sender: string)
    ensures var c := TextContent(settings, markdown, message, sender);
            && c.JObject?
            && Get(c, "msgtype") == Some(JString("m.text"))
            && GetString(c, "body").Some?
            && var body := GetString(c, "body").value;
            && |body| >= |message| && body[|body| - |message|..] == message
            && (settings.displayAppName == "True" ==> body == "**" + sender + "** says:  \n" + message)
            && (settings.displayAppName != "True" ==> body == message)
            && (settings.useMarkdown == "True" ==>
                  c.fields.Keys == {"msgtype", "body", "format", "formatted_body"}
                  && Get(c, "format") == Some(JString(HtmlFormat))
                  && Get(c, "formatted_body") == Some(JString(markdown(body))))
            && (settings.useMarkdown != "True" ==> c.fields.Keys == {"msgtype", "body"})
  {
    var body := SenderPrefix(settings.displayAppName, sender) + message;
    assert body[|body| - |message|..] == message;
  }

  /** `send_message` sends exactly one `m.room.message` event, with the
      text event, to the given room, always ignoring unverified devices;
      it syncs first exactly when asked; without a client it sends nothing. */
  lemma SendMessageLaws(settings: Settings, markdown: string -> string, client: Option<Session>,
                        message: string, room: string, sender: string, sync: bool)
    ensures var calls := SendMessageCalls(settings, markdown, client, message, room, sender, sync);
            && (client.None? ==> calls == [])
            && (client.Some? ==>
                  && |calls| == (if sync then 2 else 1)
                  && calls[|calls| - 1] == RoomSend(room, RoomMessage, TextContent(settings, markdown, message, sender), true)
                  && (sync ==> calls[0] == Sync(3000, true)))
  {
  }

  /** Into an encrypted room (or one the client does not know) the bridge
      uploads only the ciphertext, as `application/octet-stream` with the
      ciphertext's length; the event carries a `v2` `file` object with the
      uploaded URL and the key material, no top-level `url`, and the
      plaintext size in `info`. */
  lemma EncryptedImage(settings: Settings, markdown: string -> string, session: Session,
                       rooms: map<string, bool>, fileBytes: seq<Byte>, filename: string, mimetype: string,
                       room: string, sender: string, caption: Option<string>, sync: bool,
                       attachment: EncryptedAttachment, uri: string)
    requires IsEncryptedRoom(rooms, room)
    ensures var calls := SendImageCalls(settings, markdown, Some(session), rooms, fileBytes, filename, mimetype,
                                        room, sender, caption, sync, Some(attachment), Uploaded(uri));
            && |calls| >= 2
            && (forall c :: c in calls && c.Upload? ==>
                  c == Upload(attachment.ciphertext, "application/octet-stream", filename, |attachment.ciphertext|))
            && calls[|calls| - 1].RoomSend?
            && var event := calls[|calls| - 1].content;
            && event.JObject? && "url" !in event.fields
            && Get(event, "msgtype") == Some(JString("m.image"))
            && Get(event, "file") == Some(FileObject(uri, attachment))
            && Get(FileObject(uri, attachment), "v") == Some(JString("v2"))
            && Get(event, "info") == Some(JObject(map["mimetype" := JString(mimetype), "size" := JInt(|fileBytes|)]))
  {
  }

  /** Whatever the client, the encryption and the upload's answer: an upload
      happens exactly when there is a client and the file can be sent (an
      unencrypted room, or an attachment that could be encrypted); into an
      encrypted room it is of the ciphertext only, never of the original
      bytes, and otherwise of the original bytes with their type. */
  lemma ImageUploads(settings: Settings, markdown: string -> string, client: Option<Session>,
                     rooms: map<string, bool>, fileBytes: seq<Byte>, filename: string, mimetype: string,
                     room: string, sender: string, caption: Option<string>, sync: bool,
                     encryption: Option<EncryptedAttachment>, upload: UploadResult)
    ensures var calls := SendImageCalls(settings, markdown, client, rooms, fileBytes, filename, mimetype,
                                        room, sender, caption, sync, encryption, upload);
            && (forall c :: c in calls && c.Upload? ==>
                  if IsEncryptedRoom(rooms, room) then
                    && encryption.Some?
                    && c == Upload(encryption.value.ciphertext, "application/octet-stream", filename,
                                   |encryption.value.ciphertext|)
                  else c == Upload(fileBytes, mimetype, filename, |fileBytes|))
            && ((exists c :: c in calls && c.Upload?)
                <==> client.Some? && (!IsEncryptedRoom(rooms, room) || encryption.Some?))
  {
    var calls := SendImageCalls(settings, markdown, client, rooms, fileBytes, filename, mimetype,
                                room, sender, caption, sync, encryption, upload);
    if client.Some? && (!IsEncryptedRoom(rooms, room) || encryption.Some?) {
      var synced := if sync then [Sync(3000, true)] else [];
      assert calls[|synced|].Upload?;
    }
  }

  /** Into a room the client knows to be unencrypted the bridge uploads the
      original bytes with their own type and length; the event carries the
      uploaded URL at top level and no `file` object. */
  lemma PlainImage(settings: Settings, markdown: string -> string, session: Session,
                   rooms: map<string, bool>, fileBytes: seq<Byte>, filename: string, mimetype: string,
                   room: string, sender: string, caption: Option<string>, sync: bool,
                   encryption: Option<EncryptedAttachment>, uri: string)
    requires !IsEncryptedRoom(rooms, room)
    ensures var calls := SendImageCalls(settings, markdown, Some(session), rooms, fileBytes, filename, mimetype,
                                        room, sender, caption, sync, encryption, Uploaded(uri));
            && |calls| >= 2
            && calls[|calls| - 2] == Upload(fileBytes, mimetype, filename, |fileBytes|)
            && calls[|calls| - 1].RoomSend?
            && var event := calls[|calls| - 1].content;
            && event.JObject? && "file" !in event.fields
            && Get(event, "url") == Some(JString(uri))
            && Get(event, "info") == Some(JObject(map["mimetype" := JString(mimetype), "size" := JInt(|fileBytes|)]))
  {
  }

  /** The image event's body is the caption when there is one and the file
      name otherwise; the sender prefix appears only in `formatted_body`,
      which is there exactly when USE_MARKDOWN is `True` and there is a
      caption or a prefix. */
  lemma ImageText(settings: Settings, markdown: string -> string, session: Session,
                  rooms: map<string, bool>, fileBytes: seq<Byte>, filename: string, mimetype: string,
                  room: string, sender: string, caption: Option<string>, sync: bool,
                  encryption: Option<EncryptedAttachment>, upload: UploadResult)
    ensures var calls := SendImageCalls(settings, markdown, Some(session), rooms, fileBytes, filename, mimetype,
                                        room, sender, caption, sync, encryption, upload);
            var prefix := SenderPrefix(settings.displayAppName, sender);
            forall c :: c in calls && c.RoomSend? ==>
              && c.roomId == room && c.messageType == RoomMessage && c.ignoreUnverifiedDevices
              && Get(c.content, "body") == Some(JString(if HasCaption(caption) then caption.value else filename))
              && (("formatted_body" in c.content.fields)
                  <==> (settings.useMarkdown == "True" && (HasCaption(caption) || prefix != "")))
              && ("formatted_body" in c.content.fields ==>
                    Get(c.content, "formatted_body") == Some(JString(markdown(prefix + ImageBody(filename, caption)))))
  {
  }

  /** Nothing is sent to the room when the upload fails, when the
      encryption code cannot be loaded for an encrypted room, or when
      there is no client. */
  lemma ImageNotSent(settings: Settings, markdown: string -> string, client: Option<Session>,
                     rooms: map<string, bool>, fileBytes: seq<Byte>, filename: string, mimetype: string,
                     room: string, sender: string, caption: Option<string>, sync: bool,
                     encryption: Option<EncryptedAttachment>, upload: UploadResult)
    requires upload.UploadError? || (IsEncryptedRoom(rooms, room) && encryption.None?) || client.None?
    ensures var calls := SendImageCalls(settings, markdown, client, rooms, fileBytes, filename, mimetype,
                                        room, sender, caption, sync, encryption, upload);
            forall c :: c in calls ==> !c.RoomSend?
  {
  }
}
