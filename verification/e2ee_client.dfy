/** The Matrix side of the bridge: an end-to-end-encryption capable client
    that logs in (first time, or from stored credentials), greets the admin
    room once, answers device verification, sends texts and images, and
    joins its rooms. Each homeserver call is recorded in `trace`; each
    answer the client acts on is a parameter. */
module E2EE {
  import opened Wrappers
  import opened Bytes
  import opened JsonValue
  import opened MatrixTypes
  import opened Verification
  import opened MessageContent

  /** Certificate checking on the first login: the setting is `True`. */
  function SslVerify(setting: string): bool
  {
    setting == "True"
  }

  /** Certificate checking as `_login_with_stored_config` computes it:
      `bool(setting)`, true for every non-empty string. */
  function SslVerifyAsWritten(setting: string): bool
  {
    setting != ""
  }

  /** The client `_login_first_time` builds, before the login answers. */
  function FirstTimeSession(settings: Settings): Session
  {
    Session(settings.server, settings.userId, None, SslVerify(settings.sslVerify))
  }

  /** The client `_login_with_stored_config` builds from the stored record. */
  function StoredSession(settings: Settings, stored: Credentials): Session
  {
    Session(stored.homeserver, stored.userId, Some(stored.deviceId), SslVerify(settings.sslVerify))
  }

  /** The same client with the certificate check as the code computes it. */
  function StoredSessionAsWritten(settings: Settings, stored: Credentials): Session
  {
    Session(stored.homeserver, stored.userId, Some(stored.deviceId), SslVerifyAsWritten(settings.sslVerify))
  }

  /** As written, the two login paths disagree on certificate checking:
      with MATRIX_SSLVERIFY set to `False` the first login does not check
      certificates and every later start does. */
  lemma SslFlagsDisagreeAsWritten(settings: Settings, stored: Credentials)
    requires settings.sslVerify == "False"
    ensures !FirstTimeSession(settings).ssl && StoredSessionAsWritten(settings, stored).ssl
  {
  }

  /** With the setting read the same way on both paths, a restart checks
      certificates exactly as the first login did, for every setting. */
  lemma SslFlagsAgree(settings: Settings, stored: Credentials)
    ensures FirstTimeSession(settings).ssl == StoredSession(settings, stored).ssl
    ensures StoredSession(settings, stored).ssl <==> settings.sslVerify == "True"
  {
  }

  /** Where the corrected restore differs from the code: exactly for a
      MATRIX_SSLVERIFY that is neither `True` nor empty, and then only in the
      certificate flag, which the code turns on and the correction off. */
  lemma StoredSessionsAgree(settings: Settings, stored: Credentials)
    ensures StoredSession(settings, stored) == StoredSessionAsWritten(settings, stored)
            <==> settings.sslVerify == "True" || settings.sslVerify == ""
    ensures StoredSession(settings, stored).(ssl := true) == StoredSessionAsWritten(settings, stored).(ssl := true)
    ensures StoredSession(settings, stored) != StoredSessionAsWritten(settings, stored) ==>
              StoredSessionAsWritten(settings, stored).ssl && !StoredSession(settings, stored).ssl
  {
  }

  /** The outcome of `login`: the client, the credentials file, the calls
      made and the exit status when the process ends. */
  datatype LoginState = LoginState(client: Option<Session>, stored: Option<Credentials>,
                                   calls: seq<Call>, exitStatus: Option<int>)

  /** `login`: without a credentials file, a first login with the password
      that stores what the server answers (or exits with status 1); then
      the stored configuration, which does nothing when a client already
      exists and otherwise restores the stored session. The homeserver's
      answer fills in the client's user and device. */
  function LoginSpec(settings: Settings, client: Option<Session>, stored: Option<Credentials>,
                     result: LoginResult): LoginState
  {
    if stored.None? then
      var calls := [PasswordLogin(settings.password, settings.device)];
      match result
      case LoginResponse(userId, deviceId, token) =>
        LoginState(Some(FirstTimeSession(settings).(userId := userId, deviceId := Some(deviceId))),
                   Some(Credentials(settings.server, userId, deviceId, token)), calls, None)
      case LoginError => LoginState(Some(FirstTimeSession(settings)), None, calls, Some(1))
    else if client.Some? then LoginState(client, stored, [], None)
    else
      var c := stored.value;
      LoginState(Some(StoredSession(settings, c)), stored, [RestoreLogin(c.userId, c.deviceId, c.accessToken)], None)
  }

  /** The password login happens exactly when there is no credentials
      file; when it fails the process exits with status 1 and nothing is
      stored; when it succeeds the record holds the configured homeserver
      and the user, device and token the server gave, and the stored
      session is not restored on top of it. With a credentials file and no
      client the stored session is restored; with a client nothing happens.
      Unless the process exits, a client exists afterwards. */
  lemma LoginLaws(settings: Settings, client: Option<Session>, stored: Option<Credentials>, result: LoginResult)
    ensures var s := LoginSpec(settings, client, stored, result);
            && (PasswordLogin(settings.password, settings.device) in s.calls <==> stored.None?)
            && (stored.None? && result.LoginError? ==> s.exitStatus == Some(1) && s.stored.None?)
            && (stored.None? && result.LoginResponse? ==>
                  && s.exitStatus.None?
                  && s.stored == Some(Credentials(settings.server, result.userId, result.deviceId, result.accessToken))
                  && s.calls == [PasswordLogin(settings.password, settings.device)])
            && (stored.Some? && client.Some? ==> s == LoginState(client, stored, [], None))
            && (stored.Some? && client.None? ==>
                  && s.client == Some(StoredSession(settings, stored.value))
                  && s.calls == [RestoreLogin(stored.value.userId, stored.value.deviceId, stored.value.accessToken)])
            && (s.exitStatus.None? ==> s.client.Some? && s.stored.Some?)
            && (s.exitStatus.Some? ==> s.exitStatus == Some(1))
  {
  }

  /** The greeting text. */
  function Greeting(device: string): string
  {
    "Hi, I'm up and runnig from **" + device + "**, waiting for webhooks!"
  }

  /** The calls of one sync callback, given whether the greeting was sent. */
  function GreetingCalls(settings: Settings, markdown: string -> string, client: Option<Session>,
                         greetingSent: bool): seq<Call>
  {
    if greetingSent then []
    else SendMessageCalls(settings, markdown, client, Greeting(settings.device), settings.adminRoom, "Webhook server", false)
  }

  /** The calls of `n` sync callbacks in a row. Every callback after the
      first sees the flag set: `SyncCallback` ensures `greetingSent` on
      return, whatever it was before, so the flag is fixed to `true` here
      rather than threaded through. */
  function SyncCallbacks(settings: Settings, markdown: string -> string, client: Option<Session>,
                         greetingSent: bool, n: nat): seq<Call>
    decreases n
  {
    if n == 0 then [] else GreetingCalls(settings, markdown, client, greetingSent) + SyncCallbacks(settings, markdown, client, true, n - 1)
  }

  /** However many sync callbacks run, the greeting goes out at most once:
      the calls of all of them are those of the first. The step from one
      callback to the next is `SyncCallback`'s contract (the flag is set on
      return); this lemma adds the count over any number of callbacks. */
  lemma {:induction false} GreetingAtMostOnce(settings: Settings, markdown: string -> string,
                                              client: Option<Session>, greetingSent: bool, n: nat)
    ensures SyncCallbacks(settings, markdown, client, greetingSent, n)
            == if n == 0 then [] else GreetingCalls(settings, markdown, client, greetingSent)
    decreases n
  {
    if n > 1 {
      GreetingAtMostOnce(settings, markdown, client, true, n - 1);
    }
  }

  /** The greeting is one text event to the admin room, from
      `Webhook server`, saying which device is up; once it was sent there
      are no more calls. */
  lemma GreetingGoesToAdminRoom(settings: Settings, markdown: string -> string, session: Session)
    ensures GreetingCalls(settings, markdown, Some(session), false)
            == [RoomSend(settings.adminRoom, RoomMessage,
                         TextContent(settings, markdown, Greeting(settings.device), "Webhook server"), true)]
    ensures GreetingCalls(settings, markdown, Some(session), true) == []
  {
  }

  /** The join calls, one per room, in the given order. */
  function JoinCalls(rooms: seq<string>): (calls: seq<Call>)
    ensures |calls| == |rooms|
    ensures forall i :: 0 <= i < |rooms| ==> calls[i] == Join(rooms[i])
  {
    if rooms == [] then [] else JoinCalls(rooms[..|rooms| - 1]) + [Join(rooms[|rooms| - 1])]
  }

  /** No element of the sequence occurs twice. */
  predicate NoRepeats(s: seq<string>)
  {
    forall i, j :: 0 <= i < j < |s| ==> s[i] != s[j]
  }

  lemma NoRepeatsAppend(s: seq<string>, x: string)
    requires NoRepeats(s) && x !in s
    ensures NoRepeats(s + [x])
  {
  }

  /** The client object. The credentials file is the field `stored`. */
  class E2EEClient {
    const storePath: string
    const configFile: string
    const joinRooms: set<string>
    var verificationFromDevice: Json
    var client: Option<Session>
    var greetingSent: bool
    var stored: Option<Credentials>
    var trace: seq<Call>

    constructor (joinRooms: set<string>, storePath: string, stored: Option<Credentials>)
      ensures this.joinRooms == joinRooms && this.storePath == storePath
      ensures configFile == storePath + "/credentials.json"
      ensures verificationFromDevice == JString("") && client.None? && !greetingSent
      ensures this.stored == stored && trace == []
    {
      this.storePath := storePath;
      configFile := storePath + "/credentials.json";
      this.joinRooms := joinRooms;
      verificationFromDevice := JString("");
      client := None;
      greetingSent := false;
      this.stored := stored;
      trace := [];
    }

    /** `_write_details_to_disk`: the four fields of a successful login. */
    method WriteDetailsToDisk(response: LoginResult, homeserver: string)
      requires response.LoginResponse?
      modifies this`stored
      ensures stored == Some(Credentials(homeserver, response.userId, response.deviceId, response.accessToken))
    {
      stored := Some(Credentials(homeserver, response.userId, response.deviceId, response.accessToken));
    }

    /** `_login_first_time`: a new client, a password login, and either the
        credentials stored or exit status 1. */
    method LoginFirstTime(settings: Settings, result: LoginResult) returns (exitStatus: Option<int>)
      modifies this`client, this`stored, this`trace
      ensures trace == old(trace) + [PasswordLogin(settings.password, settings.device)]
      ensures result.LoginResponse? ==>
                && exitStatus.None?
                && client == Some(FirstTimeSession(settings).(userId := result.userId, deviceId := Some(result.deviceId)))
                && stored == Some(Credentials(settings.server, result.userId, result.deviceId, result.accessToken))
      ensures result.LoginError? ==>
                exitStatus == Some(1) && client == Some(FirstTimeSession(settings)) && stored == old(stored)
    {
      client := Some(FirstTimeSession(settings));
      trace := trace + [PasswordLogin(settings.password, settings.device)];
      if result.LoginResponse? {
        client := Some(client.value.(userId := result.userId, deviceId := Some(result.deviceId)));
        WriteDetailsToDisk(result, settings.server);
        exitStatus := None;
      } else {
        exitStatus := Some(1);
      }
    }

    /** `_login_with_stored_config`: nothing when a client exists;
        otherwise the stored session restored, or a raised error when
        there is no credentials file. */
    method LoginWithStoredConfig(settings: Settings) returns (raised: bool)
      modifies this`client, this`trace
      ensures old(client).Some? ==> !raised && client == old(client) && trace == old(trace)
      ensures old(client).None? && stored.None? ==> raised && client == old(client) && trace == old(trace)
      ensures old(client).None? && stored.Some? ==>
                && !raised
                && client == Some(StoredSession(settings, stored.value))
                && trace == old(trace) + [RestoreLogin(stored.value.userId, stored.value.deviceId, stored.value.accessToken)]
    {
      raised := false;
      if client.Some? {
        return;
      }
      if stored.None? {
        raised := true;
        return;
      }
      var config := stored.value;
      client := Some(StoredSession(settings, config));
      trace := trace + [RestoreLogin(config.userId, config.deviceId, config.accessToken)];
    }

    /** `login`. */
    method Login(settings: Settings, result: LoginResult) returns (exitStatus: Option<int>)
      modifies this`client, this`stored, this`trace
      ensures var s := LoginSpec(settings, old(client), old(stored), result);
              client == s.client && stored == s.stored && trace == old(trace) + s.calls && exitStatus == s.exitStatus
    {
      if stored.None? {
        exitStatus := LoginFirstTime(settings, result);
        if exitStatus.Some? {
          return;
        }
      }
      exitStatus := None;
      var raised := LoginWithStoredConfig(settings);
    }

    /** `to_device_callback`: only `verification_from_device` and the
        trace change, as the reaction says. */
    method ToDeviceCallback(event: ToDeviceEvent, keyVerifications: map<string, MacResult>)
      modifies this`verificationFromDevice, this`trace
      ensures var r := ToDeviceReaction(client, old(verificationFromDevice), event, keyVerifications);
              verificationFromDevice == r.fromDevice && trace == old(trace) + r.calls
    {
      match event
      case UnknownToDevice(source) =>
        if HasType(source, RequestType) {
          var fields := RequestFieldsOf(source);
          if fields.Some? && client.Some? {
            var message := ReadyMessage(client.value, fields.value);
            verificationFromDevice := fields.value.fromDevice;
            trace := trace + [ToDevice(message, Some(fields.value.transactionId))];
          }
        } else if HasType(source, DoneType) {
          var fields := DoneFieldsOf(source);
          if fields.Some? && client.Some? {
            var (txn, sender) := fields.value;
            var message := DoneMessage(verificationFromDevice, txn, sender);
            trace := trace + [ToDevice(message, Some(txn))];
          }
        }
      case VerificationStart(txn, sas) =>
        if "emoji" !in sas {
          return;
        }
        if client.Some? {
          trace := trace + [AcceptKeyVerification(txn)];
        }
      case VerificationCancel(_, _) =>
      case VerificationKey(txn) =>
        if client.Some? && txn in keyVerifications {
          trace := trace + [ConfirmShortAuthString(txn)];
        }
      case VerificationMac(txn) =>
        if client.Some? && txn in keyVerifications {
          var mac := keyVerifications[txn];
          if mac.MacMessage? {
            trace := trace + [ToDevice(mac.message, None)];
          }
        }
      case OtherToDevice =>
    }

    /** `send_message`, building the content and then adding the markdown
        fields to it. */
    method SendMessage(settings: Settings, markdown: string -> string, message: string, room: string,
                       sender: string, sync: bool) returns (raised: bool)
      modifies this`trace
      ensures raised <==> client.None?
      ensures trace == old(trace) + SendMessageCalls(settings, markdown, client, message, room, sender, sync)
    {
      if client.None? {
        return true;
      }
      if sync {
        trace := trace + [Sync(3000, true)];
      }
      var prefix := "";
      if settings.displayAppName == "True" {
        prefix := "**" + sender + "** says:  \n";
      }
      var content := map["msgtype" := JString("m.text"), "body" := JString(prefix + message)];
      if settings.useMarkdown == "True" {
        content := content["format" := JString(HtmlFormat)];
        content := content["formatted_body" := JString(markdown(prefix + message))];
      }
      trace := trace + [RoomSend(room, RoomMessage, JObject(content), true)];
      return false;
    }

    /** `send_image`, given what the client knows of the rooms, what
        `encrypt_attachment` gives and the upload's answer. */
    method SendImage(settings: Settings, markdown: string -> string, fileBytes: seq<Byte>, filename: string,
                     mimetype: string, room: string, sender: string, caption: Option<string>, sync: bool,
                     rooms: map<string, bool>, encryption: Option<EncryptedAttachment>, upload: UploadResult)
      modifies this`trace
      ensures trace == old(trace) + SendImageCalls(settings, markdown, client, rooms, fileBytes, filename, mimetype,
                                                   room, sender, caption, sync, encryption, upload)
    {
      if client.None? {
        return;
      }
      if sync {
        trace := trace + [Sync(3000, true)];
      }
      var encrypted := room !in rooms || rooms[room];
      if encrypted && encryption.None? {
        return;
      }
      var attachment := if encrypted then encryption else None;
      if attachment.Some? {
        var ciphertext := attachment.value.ciphertext;
        trace := trace + [Upload(ciphertext, "application/octet-stream", filename, |ciphertext|)];
      } else {
        trace := trace + [Upload(fileBytes, mimetype, filename, |fileBytes|)];
      }
      if upload.UploadError? {
        return;
      }
      var content := ImageContent(settings, markdown, attachment, upload.contentUri, fileBytes, filename,
                                  mimetype, sender, caption);
      trace := trace + [RoomSend(room, RoomMessage, content, true)];
    }

    /** The `m.image` event `send_image` builds once the upload answered:
        the fixed fields, then the file location, then the markdown
        rendering when it applies. */
    method ImageContent(settings: Settings, markdown: string -> string, attachment: Option<EncryptedAttachment>,
                        uri: string, fileBytes: seq<Byte>, filename: string, mimetype: string,
                        sender: string, caption: Option<string>) returns (event: Json)
      ensures event == ImageEvent(settings, markdown, attachment, uri, fileBytes, filename, mimetype, sender, caption)
    {
      var prefix := SenderPrefix(settings.displayAppName, sender);
      var body := if HasCaption(caption) then caption.value else filename;
      var content := ImageFields(body, mimetype, |fileBytes|);
      if attachment.Some? {
        content := content["file" := FileObject(uri, attachment.value)];
      } else {
        content := content["url" := JString(uri)];
      }
      ghost var fields := content;
      if settings.useMarkdown == "True" && (HasCaption(caption) || prefix != "") {
        var bodyText := prefix + ImageBody(filename, caption);
        content := content["format" := JString(HtmlFormat)];
        content := content["formatted_body" := JString(markdown(bodyText))];
      }
      assert JObject(content) == WithImageFormatting(settings, markdown, fields, prefix, filename, caption);
      event := JObject(content);
    }

    /** `_sync_callback`: the flag is set before the greeting is sent, so
        a greeting that fails is not retried. */
    method SyncCallback(settings: Settings, markdown: string -> string)
      modifies this`greetingSent, this`trace
      ensures greetingSent
      ensures trace == old(trace) + GreetingCalls(settings, markdown, client, old(greetingSent))
    {
      if !greetingSent {
        greetingSent := true;
        var greeting := Greeting(settings.device);
        var raised := SendMessage(settings, markdown, greeting, settings.adminRoom, "Webhook server", false);
      }
    }

    /** The join loop of `run`: one join call per configured room, each
        room exactly once, in an order the set iteration chooses. */
    method JoinAll() returns (ghost order: seq<string>)
      modifies this`trace
      ensures trace == old(trace) + JoinCalls(order)
      ensures forall r :: r in order <==> r in joinRooms
      ensures NoRepeats(order)
    {
      order := [];
      var remaining := joinRooms;
      while remaining != {}
        invariant remaining <= joinRooms
        invariant forall r :: r in order <==> r in joinRooms && r !in remaining
        invariant NoRepeats(order)
        invariant trace == old(trace) + JoinCalls(order)
        decreases remaining
      {
        var room :| room in remaining;
        var extended := order + [room];
        NoRepeatsAppend(order, room);
        assert extended[..|order|] == order;
        assert JoinCalls(extended) == JoinCalls(order) + [Join(room)];
        trace := trace + [Join(room)];
        order := extended;
        remaining := remaining - {room};
      }
    }

    /** `run`: login, the key upload when the client asks for one, a join
        for every room of the join-set (each exactly once, in some order),
        the joined-rooms query and the endless sync. */
    method Run(settings: Settings, result: LoginResult, shouldUploadKeys: bool)
      returns (exitStatus: Option<int>, ghost order: seq<string>)
      modifies this`client, this`stored, this`trace
      ensures var s := LoginSpec(settings, old(client), old(stored), result);
              && client == s.client && stored == s.stored && exitStatus == s.exitStatus
              && (exitStatus.Some? ==> trace == old(trace) + s.calls)
              && (exitStatus.None? ==>
                    trace == old(trace) + s.calls + (if shouldUploadKeys then [KeysUpload] else [])
                             + JoinCalls(order) + [JoinedRooms, SyncForever(300000, true)])
      ensures exitStatus.None? ==> forall r :: r in order <==> r in joinRooms
      ensures NoRepeats(order)
    {
      order := [];
      ghost var s := LoginSpec(settings, client, stored, result);
      ghost var start := trace;
      exitStatus := Login(settings, result);
      if exitStatus.Some? {
        return;
      }
      assert trace == start + s.calls;
      if shouldUploadKeys {
        trace := trace + [KeysUpload];
      }
      order := JoinAll();
      trace := trace + [JoinedRooms, SyncForever(300000, true)];
      assert client == s.client && stored == s.stored;
    }
  }
}
