/** The Matrix client's view of its homeserver: the settings it reads, the
    session object, the records it stores, and the outbound calls it makes.
    The homeserver itself is not modelled: every call is recorded in a
    trace, and every answer the client acts on is an input. */
module MatrixTypes {
  import opened Wrappers
  import opened Bytes
  import opened JsonValue

  /** The environment settings the client reads. */
  datatype Settings = Settings(
    server: string,          // MATRIX_SERVER
    userId: string,          // MATRIX_USERID
    password: string,        // MATRIX_PASSWORD
    device: string,          // MATRIX_DEVICE
    sslVerify: string,       // MATRIX_SSLVERIFY
    adminRoom: string,       // MATRIX_ADMIN_ROOM
    displayAppName: string,  // DISPLAY_APP_NAME
    useMarkdown: string)     // USE_MARKDOWN

  /** An `AsyncClient` as the bridge configures it: homeserver, user,
      device (unknown until a login answers) and certificate checking. */
  datatype Session = Session(homeserver: string, userId: string, deviceId: Option<string>, ssl: bool)

  /** The record kept in `credentials.json`. */
  datatype Credentials = Credentials(homeserver: string, userId: string, deviceId: string, accessToken: string)

  /** `ToDeviceMessage(type, recipient, recipient_device, content)`. */
  datatype ToDeviceMessage = ToDeviceMessage(messageType: string, recipient: Json, recipientDevice: Json, content: Json)

  /** An outbound call on the homeserver, with the arguments the bridge
      passes. */
  datatype Call =
    | PasswordLogin(password: string, deviceName: string)
    | RestoreLogin(userId: string, deviceId: string, accessToken: string)
    | KeysUpload
    | Join(room: string)
    | JoinedRooms
    | Sync(timeout: nat, fullState: bool)
    | SyncForever(timeout: nat, fullState: bool)
    | ToDevice(message: ToDeviceMessage, txnId: Option<Json>)
    | AcceptKeyVerification(transactionId: string)
    | ConfirmShortAuthString(transactionId: string)
    | Upload(data: seq<Byte>, contentType: string, filename: string, filesize: nat)
    | RoomSend(roomId: string, messageType: string, content: Json, ignoreUnverifiedDevices: bool)

  /** The answer to `login`. */
  datatype LoginResult =
    | LoginResponse(userId: string, deviceId: string, accessToken: string)
    | LoginError

  /** The answer to `upload` (the first element when it is a tuple). */
  datatype UploadResult = Uploaded(contentUri: string) | UploadError

  /** What `encrypt_attachment` returns: the ciphertext and the key
      material of the `file` object. */
  datatype EncryptedAttachment = EncryptedAttachment(ciphertext: seq<Byte>, iv: Json, hashes: Json, key: Json)

  /** What `sas.get_mac()` does for a transaction: give the MAC message, or
      raise `LocalProtocolError`. */
  datatype MacResult = MacMessage(message: ToDeviceMessage) | ProtocolError

  /** The events the to-device callback tells apart. */
  datatype ToDeviceEvent =
    | UnknownToDevice(source: Json)
    | VerificationStart(transactionId: string, shortAuthenticationString: seq<string>)
    | VerificationCancel(sender: string, reason: string)
    | VerificationKey(transactionId: string)
    | VerificationMac(transactionId: string)
    | OtherToDevice

  /** `client.device_id` as a JSON value: `None` before a login answered. */
  function DeviceJson(session: Session): (r: Json)
    ensures session.deviceId.Some? ==> r == JString(session.deviceId.value)
    ensures session.deviceId.None? ==> r == JNull
  {
    match session.deviceId
    case Some(d) => JString(d)
    case None => JNull
  }
}
