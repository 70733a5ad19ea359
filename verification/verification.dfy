/** The to-device callback: the bridge's side of the short authentication
    string (SAS) device verification of the Matrix Client-Server API
    (End-to-End Encryption module, "Key verification framework" and
    "Short Authentication String (SAS) verification"). The callback keeps
    one piece of state, the device of the last verification request; it
    does not track transactions. */
module Verification {
  import opened Wrappers
  import opened JsonValue
  import opened MatrixTypes

  const RequestType: string := "m.key.verification.request"
  const ReadyType: string := "m.key.verification.ready"
  const DoneType: string := "m.key.verification.done"

  /** The effect of one event: the new `verification_from_device` and the
      calls made. */
  datatype Reaction = Reaction(fromDevice: Json, calls: seq<Call>)

  /** The fields of a request event that the answer uses. */
  datatype RequestFields = RequestFields(transactionId: Json, methods: Json, sender: Json, fromDevice: Json)

  /** The fields of a request event, when all of them are there; a missing
      one raises in the handler, which then does nothing more. */
  function RequestFieldsOf(source: Json): (r: Option<RequestFields>)
    ensures r.Some? <==> Get(source, "content").Some? && Get(source, "sender").Some?
                         && Get(Get(source, "content").value, "transaction_id").Some?
                         && Get(Get(source, "content").value, "methods").Some?
                         && Get(Get(source, "content").value, "from_device").Some?
    ensures r.Some? ==> var content := Get(source, "content").value;
                        && r.value.transactionId == Get(content, "transaction_id").value
                        && r.value.methods == Get(content, "methods").value
                        && r.value.sender == Get(source, "sender").value
                        && r.value.fromDevice == Get(content, "from_device").value
  {
    match Get(source, "content")
    case None => None
    case Some(content) =>
      match (Get(content, "transaction_id"), Get(content, "methods"), Get(source, "sender"), Get(content, "from_device"))
      case (Some(txn), Some(methods), Some(sender), Some(fromDevice)) => Some(RequestFields(txn, methods, sender, fromDevice))
      case _ => None
  }

  /** The transaction id and sender of a done event, when both are there. */
  function DoneFieldsOf(source: Json): (r: Option<(Json, Json)>)
    ensures r.Some? <==> Get(source, "content").Some? && Get(source, "sender").Some?
                         && Get(Get(source, "content").value, "transaction_id").Some?
    ensures r.Some? ==> r.value == (Get(Get(source, "content").value, "transaction_id").value, Get(source, "sender").value)
  {
    match Get(source, "content")
    case None => None
    case Some(content) =>
      match (Get(content, "transaction_id"), Get(source, "sender"))
      case (Some(txn), Some(sender)) => Some((txn, sender))
      case _ => None
  }

  /** The `m.key.verification.ready` answer to a request. */
  function ReadyMessage(session: Session, f: RequestFields): ToDeviceMessage
  {
    ToDeviceMessage(ReadyType, f.sender, f.fromDevice,
                    JObject(map["transaction_id" := f.transactionId,
                                "from_device" := DeviceJson(session),
                                "methods" := f.methods]))
  }

  /** The `m.key.verification.done` answer, to the recorded device. */
  function DoneMessage(fromDevice: Json, transactionId: Json, sender: Json): ToDeviceMessage
  {
    ToDeviceMessage(DoneType, sender, fromDevice, JObject(map["transaction_id" := transactionId]))
  }

  /** An unknown event whose `type` is `kind`. */
  predicate HasType(source: Json, kind: string) {
    Get(source, "type") == Some(JString(kind))
  }

  function NoReaction(fromDevice: Json): Reaction {
    Reaction(fromDevice, [])
  }

  /** `to_device_callback`, given the client (`None` before login), the
      recorded device, the event, and the SAS transactions the client
      knows with what `get_mac` does for each. */
  function ToDeviceReaction(client: Option<Session>, fromDevice: Json, event: ToDeviceEvent,
                            keyVerifications: map<string, MacResult>): Reaction
  {
    match event
    case UnknownToDevice(source) =>
      if HasType(source, RequestType) then
        match RequestFieldsOf(source)
        case Some(f) =>
          if client.Some? then Reaction(f.fromDevice, [ToDevice(ReadyMessage(client.value, f), Some(f.transactionId))])
          else NoReaction(fromDevice)
        case None => NoReaction(fromDevice)
      else if HasType(source, DoneType) then
        match DoneFieldsOf(source)
        case Some((txn, sender)) =>
          if client.Some? then Reaction(fromDevice, [ToDevice(DoneMessage(fromDevice, txn, sender), Some(txn))])
          else NoReaction(fromDevice)
        case None => NoReaction(fromDevice)
      else NoReaction(fromDevice)
    case VerificationStart(txn, sas) =>
      if "emoji" in sas && client.Some? then Reaction(fromDevice, [AcceptKeyVerification(txn)])
      else NoReaction(fromDevice)
    case VerificationCancel(_, _) => NoReaction(fromDevice)
    case VerificationKey(txn) =>
      if client.Some? && txn in keyVerifications then Reaction(fromDevice, [ConfirmShortAuthString(txn)])
      else NoReaction(fromDevice)
    case VerificationMac(txn) =>
      if client.Some? && txn in keyVerifications && keyVerifications[txn].MacMessage? then
        Reaction(fromDevice, [ToDevice(keyVerifications[txn].message, None)])
      else NoReaction(fromDevice)
    case OtherToDevice => NoReaction(fromDevice)
  }

  /** A request, with all its fields, answered by a logged-in client, gets
      exactly one `m.key.verification.ready` message: to the requesting
      user and device, echoing the transaction id and the methods, naming
      the bridge's own device as `from_device`, sent under the same
      transaction id; the requesting device becomes the recorded one. */
  lemma RequestAnswered(session: Session, fromDevice: Json, source: Json, keyVerifications: map<string, MacResult>)
    requires HasType(source, RequestType) && RequestFieldsOf(source).Some?
    ensures var r := ToDeviceReaction(Some(session), fromDevice, UnknownToDevice(source), keyVerifications);
            var content := Get(source, "content").value;
            && |r.calls| == 1 && r.calls[0].ToDevice?
            && r.calls[0].txnId == Some(Get(content, "transaction_id").value)
            && var m := r.calls[0].message;
            && m.messageType == ReadyType
            && m.recipient == Get(source, "sender").value
            && m.recipientDevice == Get(content, "from_device").value
            && Get(m.content, "transaction_id") == Get(content, "transaction_id")
            && Get(m.content, "methods") == Get(content, "methods")
            && Get(m.content, "from_device") == Some(DeviceJson(session))
            && r.fromDevice == Get(content, "from_device").value
  {
  }

  /** A done event, with its fields, answered by a logged-in client, gets
      exactly one `m.key.verification.done` message, with the same
      transaction id, to the device recorded by the last request; the
      record is kept. */
  lemma DoneToRecordedDevice(session: Session, fromDevice: Json, source: Json, keyVerifications: map<string, MacResult>)
    requires HasType(source, DoneType) && DoneFieldsOf(source).Some?
    ensures var r := ToDeviceReaction(Some(session), fromDevice, UnknownToDevice(source), keyVerifications);
            var txn := Get(Get(source, "content").value, "transaction_id").value;
            && r.fromDevice == fromDevice
            && r.calls == [ToDevice(ToDeviceMessage(DoneType, Get(source, "sender").value, fromDevice,
                                                    JObject(map["transaction_id" := txn])), Some(txn))]
  {
  }

  /** A start is accepted only when emoji are among the offered methods
      (and a client exists); otherwise nothing is sent. */
  lemma StartNeedsEmoji(client: Option<Session>, fromDevice: Json, txn: string, sas: seq<string>,
                        keyVerifications: map<string, MacResult>)
    ensures var r := ToDeviceReaction(client, fromDevice, VerificationStart(txn, sas), keyVerifications);
            && r.fromDevice == fromDevice
            && ("emoji" !in sas ==> r.calls == [])
            && ("emoji" in sas && client.Some? ==> r.calls == [AcceptKeyVerification(txn)])
  {
  }

  /** A key event confirms the short authentication string of its
      transaction when the client knows the transaction; a MAC event sends
      the MAC message when `get_mac` gives one and nothing when it raises. */
  lemma KeyAndMac(session: Session, fromDevice: Json, txn: string, keyVerifications: map<string, MacResult>)
    requires txn in keyVerifications
    ensures ToDeviceReaction(Some(session), fromDevice, VerificationKey(txn), keyVerifications)
            == Reaction(fromDevice, [ConfirmShortAuthString(txn)])
    ensures keyVerifications[txn].ProtocolError? ==>
              ToDeviceReaction(Some(session), fromDevice, VerificationMac(txn), keyVerifications) == NoReaction(fromDevice)
    ensures keyVerifications[txn].MacMessage? ==>
              ToDeviceReaction(Some(session), fromDevice, VerificationMac(txn), keyVerifications)
              == Reaction(fromDevice, [ToDevice(keyVerifications[txn].message, None)])
  {
  }

  /** Every event makes at most one call, and only an answered request
      changes the recorded device. Cancels, unrecognised events and unknown
      events of other types make none. */
  lemma OneCallAtMost(client: Option<Session>, fromDevice: Json, event: ToDeviceEvent,
                      keyVerifications: map<string, MacResult>)
    ensures var r := ToDeviceReaction(client, fromDevice, event, keyVerifications);
            && |r.calls| <= 1
            && (r.fromDevice != fromDevice ==> AnsweredRequest(client, event))
            && (event.VerificationCancel? || event.OtherToDevice? ==> r == NoReaction(fromDevice))
            && ((event.UnknownToDevice? && !HasType(event.source, RequestType) && !HasType(event.source, DoneType))
                ==> r == NoReaction(fromDevice))
  {
  }

  /** The event is a request the handler answers. */
  predicate AnsweredRequest(client: Option<Session>, event: ToDeviceEvent) {
    && client.Some? && event.UnknownToDevice?
    && HasType(event.source, RequestType) && RequestFieldsOf(event.source).Some?
  }

  /** A sequence of events handled one after the other: the final record
      and all calls, in order. */
  function HandleAll(client: Option<Session>, fromDevice: Json, events: seq<ToDeviceEvent>,
                     keyVerifications: map<string, MacResult>): Reaction
  {
    if events == [] then NoReaction(fromDevice)
    else
      var before := HandleAll(client, fromDevice, events[..|events| - 1], keyVerifications);
      var step := ToDeviceReaction(client, before.fromDevice, events[|events| - 1], keyVerifications);
      Reaction(step.fromDevice, before.calls + step.calls)
  }

  /** Event `i` is an answered request and no later one is. */
  predicate LastAnsweredRequestAt(client: Option<Session>, events: seq<ToDeviceEvent>, i: int) {
    && 0 <= i < |events| && AnsweredRequest(client, events[i])
    && forall j :: i < j < |events| ==> !AnsweredRequest(client, events[j])
  }

  /** After any sequence of events the recorded device is the requesting
      device of the last answered request, or the initial one when no
      request was answered. */
  lemma {:induction false} LastRequestRecorded(client: Option<Session>, fromDevice: Json,
                                               events: seq<ToDeviceEvent>, keyVerifications: map<string, MacResult>)
    ensures forall i :: LastAnsweredRequestAt(client, events, i) ==>
              HandleAll(client, fromDevice, events, keyVerifications).fromDevice
              == RequestFieldsOf(events[i].source).value.fromDevice
    ensures (forall i :: 0 <= i < |events| ==> !AnsweredRequest(client, events[i])) ==>
              HandleAll(client, fromDevice, events, keyVerifications).fromDevice == fromDevice
    decreases |events|
  {
    if events != [] {
      var n := |events| - 1;
      var init := events[..n];
      LastRequestRecorded(client, fromDevice, init, keyVerifications);
      var before := HandleAll(client, fromDevice, init, keyVerifications);
      OneCallAtMost(client, before.fromDevice, events[n], keyVerifications);
      forall i | LastAnsweredRequestAt(client, events, i)
        ensures HandleAll(client, fromDevice, events, keyVerifications).fromDevice
                == RequestFieldsOf(events[i].source).value.fromDevice
      {
        if i < n {
          assert init[i] == events[i];
          assert LastAnsweredRequestAt(client, init, i);
        }
      }
      if forall i :: 0 <= i < |events| ==> !AnsweredRequest(client, events[i]) {
        forall i | 0 <= i < n ensures !AnsweredRequest(client, init[i]) {
          assert init[i] == events[i];
        }
      }
    }
  }

  /** The handshake as the bridge sees it: after a run of events whose
      last answered request came from device `d`, a done event is answered
      on device `d`. */
  lemma DoneAnswersLastRequest(session: Session, fromDevice: Json, events: seq<ToDeviceEvent>,
                               i: nat, source: Json, keyVerifications: map<string, MacResult>)
    requires LastAnsweredRequestAt(Some(session), events, i)
    requires HasType(source, DoneType) && DoneFieldsOf(source).Some?
    ensures var r := HandleAll(Some(session), fromDevice, events + [UnknownToDevice(source)], keyVerifications);
            var txn := Get(Get(source, "content").value, "transaction_id").value;
            var device := RequestFieldsOf(events[i].source).value.fromDevice;
            r.calls[|r.calls| - 1] == ToDevice(ToDeviceMessage(DoneType, Get(source, "sender").value, device,
                                                               JObject(map["transaction_id" := txn])), Some(txn))
  {
    var all := events + [UnknownToDevice(source)];
    assert all[..|all| - 1] == events;
    LastRequestRecorded(Some(session), fromDevice, events, keyVerifications);
    var before := HandleAll(Some(session), fromDevice, events, keyVerifications);
    DoneToRecordedDevice(session, before.fromDevice, source, keyVerifications);
  }
}
