/** The gateway client (`sendSMS`, `filterDLR`): what is sent, and how each
    reply is turned into either the parsed body or a thrown error.

    The HTTP exchange is abstracted: a reply is the status code and the body
    as `response.json()` would parse it, or the failure of `fetch` itself.
    Credentials and the sender id come from the environment and are not
    modelled. */
module Gateway {
  import opened Results
  import opened Text
  import opened Phone

  // ---------------------------------------------------------------------
  // Replies
  // ---------------------------------------------------------------------

  /** A parsed JSON value (numbers are integers in this model). */
  datatype Json =
    | JNull
    | JBool(b: bool)
    | JNum(n: int)
    | JStr(s: string)
    | JArr(items: seq<Json>)
    | JObj(fields: map<string, Json>)

  /** The body of a reply: a JSON value, or the message of the error
      `response.json()` throws on a body that is not JSON. */
  datatype Body = Unparsable(message: string) | Parsed(value: Json)

  /** What `fetch` settles to: a reply, or the message of the error it
      throws when no reply arrives. */
  datatype HttpReply = NetworkFailure(message: string) | Reply(status: nat, body: Body)

  /** `response.ok`. */
  predicate IsOk(status: nat) {
    200 <= status <= 299
  }

  /** The message that marks an authentication failure, whichever check
      produces it. */
  const AuthMessage := "Invalid Username or Password"
  const NotObjectMessage := "Invalid response format: Response is not an object"
  const SmsNotArrayMessage := "Invalid response format: sms property is not an array"
  const DlrNotArrayMessage := "Invalid response format: dlrlist property is not an array"
  const SendFailedMessage := "Error sending SMS"

  function HttpErrorMessage(status: nat): string {
    "HTTP error! status: " + NatToString(status)
  }

  /** The message of the TypeError thrown when `responsecode` is read
      from a `null` body (V8's wording). */
  const NullBodyMessage := "Cannot read properties of null (reading 'responsecode')"

  /** `v[key]` for a value that is not `null`: an object's own field, and
      `undefined` for anything else. */
  function Get(v: Json, key: string): Option<Json> {
    if v.JObj? && key in v.fields then Some(v.fields[key]) else None
  }

  /** JavaScript truthiness, with `None` standing for `undefined`. */
  predicate Truthy(v: Option<Json>) {
    match v
    case None => false
    case Some(j) =>
      match j
      case JNull => false
      case JBool(b) => b
      case JNum(n) => n != 0
      case JStr(s) => s != ""
      case JArr(_) => true
      case JObj(_) => true
  }

  /** `Array.isArray(v)`. */
  predicate IsArray(v: Option<Json>) {
    v.Some? && v.value.JArr?
  }

  /** `typeof v === 'object'`. */
  predicate IsObjectLike(v: Json) {
    v.JNull? || v.JArr? || v.JObj?
  }

  /** `String(v)`: what `new Error(v)` takes as its message. Array
      elements that are `null` print as nothing. */
  function JsString(v: Json): string
    decreases v
  {
    match v
    case JNull => "null"
    case JBool(b) => if b then "true" else "false"
    case JNum(n) => IntToString(n)
    case JStr(s) => s
    case JArr(items) =>
      Join(seq(|items|, i requires 0 <= i < |items| =>
                 if items[i].JNull? then "" else JsString(items[i])), ',')
    case JObj(_) => "[object Object]"
  }

  // ---------------------------------------------------------------------
  // sendSMS
  // ---------------------------------------------------------------------

  /** The request fields the application controls: the destination and
      the text. */
  datatype SendRequest = SendRequest(mobiles: string, sms: string)

  /** The destination sent to the gateway: the country code 237 in front
      of the contact's phone field exactly as stored. */
  function Destination(phone: string): (d: string)
    ensures StartsWith(d, "237") && d[3..] == phone
  {
    "237" + phone
  }

  function RequestFor(phone: string, message: string): (q: SendRequest)
    ensures StartsWith(q.mobiles, "237") && q.mobiles[3..] == phone
    ensures q.sms == message
  {
    SendRequest(Destination(phone), message)
  }

  /** The gateway marks a request as failed: `responsecode` is the number 0
      and `responsedescription` is the string "error". */
  predicate IsRejection(v: Json) {
    Get(v, "responsecode") == Some(JNum(0)) && Get(v, "responsedescription") == Some(JStr("error"))
  }

  /** The message thrown for a rejected request: the authentication
      message, else the gateway's `responsemessage` when truthy, else a
      generic one. */
  function RejectionMessage(responseMessage: Option<Json>): string {
    if responseMessage == Some(JStr(AuthMessage)) then AuthMessage
    else if Truthy(responseMessage) then JsString(responseMessage.value)
    else SendFailedMessage
  }

  /** `sendSMS`: the checks in the order the client makes them. The body is
      returned untouched exactly when every check passes. */
  function ClassifySend(reply: HttpReply): (r: Result<Json>)
    ensures r.Ok? <==> && reply.Reply? && IsOk(reply.status) && reply.body.Parsed?
                       && !reply.body.value.JNull? && !IsRejection(reply.body.value)
                       && IsObjectLike(reply.body.value) && IsArray(Get(reply.body.value, "sms"))
    ensures r.Ok? ==> reply.body == Parsed(r.value)
  {
    match reply
    case NetworkFailure(m) => Err(m)
    case Reply(status, body) =>
      if !IsOk(status) then
        if status == 401 then Err(AuthMessage) else Err(HttpErrorMessage(status))
      else
        match body
        case Unparsable(m) => Err(m)
        case Parsed(v) =>
          if v.JNull? then Err(NullBodyMessage)
          else if IsRejection(v) then Err(RejectionMessage(Get(v, "responsemessage")))
          else if !Truthy(Some(v)) || !IsObjectLike(v) then Err(NotObjectMessage)
          else if !IsArray(Get(v, "sms")) then Err(SmsNotArrayMessage)
          else Ok(v)
  }

  /** What the send handler reads from a returned body: the `messageid` of
      the first `sms` entry, when that is a non-empty string. */
  function FirstMessageId(v: Json): (id: Option<string>)
    ensures id.Some? ==> id.value != ""
    ensures id.Some? ==> IsArray(Get(v, "sms")) && |Get(v, "sms").value.items| > 0
    ensures forall m :: id == Some(m) <==>
              && IsArray(Get(v, "sms")) && |Get(v, "sms").value.items| > 0
              && Get(Get(v, "sms").value.items[0], "messageid") == Some(JStr(m)) && m != ""
  {
    match Get(v, "sms")
    case Some(JArr(items)) =>
      if |items| > 0 then
        match Get(items[0], "messageid")
        case Some(JStr(id)) => if id != "" then Some(id) else None
        case _ => None
      else None
    case _ => None
  }

  // ---------------------------------------------------------------------
  // filterDLR
  // ---------------------------------------------------------------------

  /** One delivery receipt as the client's interface declares it. A missing
      `messageid` is `None` (`undefined`). */
  datatype Receipt = Receipt(messageid: Option<string>, status: string)

  /** `filterDLR`: the body is returned untouched exactly when it is an
      object whose `dlrlist` is an array. */
  function ClassifyDlr(reply: HttpReply): (r: Result<Json>)
    ensures r.Ok? <==> && reply.Reply? && IsOk(reply.status) && reply.body.Parsed?
                       && IsObjectLike(reply.body.value) && !reply.body.value.JNull?
                       && IsArray(Get(reply.body.value, "dlrlist"))
    ensures r.Ok? ==> reply.body == Parsed(r.value)
  {
    match reply
    case NetworkFailure(m) => Err(m)
    case Reply(status, body) =>
      if !IsOk(status) then
        if status == 401 then Err(AuthMessage) else Err(HttpErrorMessage(status))
      else
        match body
        case Unparsable(m) => Err(m)
        case Parsed(v) =>
          if !Truthy(Some(v)) || !IsObjectLike(v) then Err(NotObjectMessage)
          else if !IsArray(Get(v, "dlrlist")) then Err(DlrNotArrayMessage)
          else Ok(v)
  }

  // ---------------------------------------------------------------------
  // Properties
  // ---------------------------------------------------------------------

  /** Both endpoints turn a non-2xx status into the same error: the
      authentication message for 401, the status code otherwise. */
  lemma HttpErrors(reply: HttpReply)
    requires reply.Reply? && !IsOk(reply.status)
    ensures ClassifySend(reply) == ClassifyDlr(reply)
    ensures reply.status == 401 ==> ClassifySend(reply) == Err(AuthMessage)
    ensures reply.status != 401 ==>
              (&& ClassifySend(reply).Err?
               && StartsWith(ClassifySend(reply).message, "HTTP error! status: ")
               && DecimalValue(ClassifySend(reply).message[20..]) == reply.status)
  {
    if reply.status != 401 {
      var m := HttpErrorMessage(reply.status);
      assert m[20..] == NatToString(reply.status);
      NatToStringRoundTrip(reply.status);
    }
  }

  /** For a reply that arrived, with a JSON body whenever the status is
      2xx (a body that is not JSON can carry any parser message), the
      authentication error comes only from a 401 status or from a
      rejection whose message reads as the authentication message: no HTTP
      or format error is ever mistaken for it. */
  lemma AuthOnlyFromCredentials(reply: HttpReply)
    requires reply.Reply? && (IsOk(reply.status) ==> reply.body.Parsed?)
    ensures ClassifySend(reply) == Err(AuthMessage) <==>
              || reply.status == 401
              || (&& IsOk(reply.status) && IsRejection(reply.body.value)
                  && RejectionMessage(Get(reply.body.value, "responsemessage")) == AuthMessage)
    ensures ClassifyDlr(reply) == Err(AuthMessage) <==> reply.status == 401
  {
    if !IsOk(reply.status) && reply.status != 401 {
      assert HttpErrorMessage(reply.status)[0] != AuthMessage[0];
    }
    assert |NullBodyMessage| != |AuthMessage|;
    assert |NotObjectMessage| != |AuthMessage|;
    assert |SmsNotArrayMessage| != |AuthMessage|;
    assert |DlrNotArrayMessage| != |AuthMessage|;
  }

  /** The rejection check comes before the shape checks: a rejected
      request fails with the rejection message even when its body has no
      `sms` array. */
  lemma RejectionBeforeShape(status: nat, v: Json)
    requires IsOk(status) && IsRejection(v)
    ensures ClassifySend(Reply(status, Parsed(v))) == Err(RejectionMessage(Get(v, "responsemessage")))
    ensures Get(v, "responsemessage") == Some(JStr(AuthMessage)) ==>
              ClassifySend(Reply(status, Parsed(v))) == Err(AuthMessage)
    ensures !Truthy(Get(v, "responsemessage")) ==>
              ClassifySend(Reply(status, Parsed(v))) == Err(SendFailedMessage)
  {
  }

  /** Sending to an Orange or MTN number keeps the carrier the validator
      sees, while a Nexttel or Camtel number with the country code in front
      no longer validates. */
  lemma DestinationVerdict(phone: string)
    ensures Validate(phone).operator in {Orange, MTN} ==> Validate(Destination(phone)) == Validate(phone)
    ensures Validate(phone).operator in {Nexttel, Camtel} ==> !Validate(Destination(phone)).isValid
  {
    if Validate(phone).operator in {Orange, MTN} {
      PrefixKeepsOrangeMtn("237", phone);
    }
    if Validate(phone).operator in {Nexttel, Camtel} {
      CountryCodeBreaksNexttelCamtel(phone);
    }
  }
}
