// The MessengerPeople driver for BotMan: it recognises MessengerPeople
// webhook calls, answers the webhook handshake, turns an event into BotMan's
// IncomingMessage and User, and turns a bot reply into the body and the
// identifier of a send-message call. HTTP (the token and send requests) and
// JSON decoding stay outside: the decoded request body and the BotMan
// configuration are inputs.

module MessengerPeople {
  import opened Wrappers
  import opened Php
  import opened ArrayFunctions

  /** BotMan's IncomingMessage as the driver fills it: text, sender, recipient and the whole request body. */
  datatype IncomingMessage = IncomingMessage(text: Json, sender: Json, recipient: Json, payload: PhpArray)

  /** BotMan's User: id, first name, last name, username and the raw user data. */
  datatype User = User(id: Json, firstName: Json, lastName: Json, username: Json, info: PhpArray)

  /** BotMan's Answer: the answer text and the message it came with. */
  datatype Answer = Answer(text: Json, message: IncomingMessage)

  /** What the bot hands to buildServicePayload. */
  datatype Reply =
    | Question(text: Json, buttons: seq<Json>)  // BotMan's Question
    | Outgoing(text: Json, attachment: Json)    // BotMan's OutgoingMessage
    | Plain(v: Json)                            // a bare string, or a ready-made array

  /** The 'identifier' and 'payload' of a send-message call. */
  datatype ServicePayload = ServicePayload(identifier: string, payload: PhpArray)

  /** Reading `$x['text']` when $x is a string: PHP refuses a non-numeric string offset. */
  datatype Error = IllegalStringOffset

  /** The default payload that the caller's extra parameters are merged into. */
  const TextDefault: PhpArray := [Entry(K("type"), Str("text"))]

  /** `$x['text']` for the value of the event's 'payload': null unless $x is an array holding 'text'. */
  function TextOf(x: Json): Result<Json, Error>
  {
    match x
    case Arr(es) => Success(Get(es, K("text")))
    case Str(_) => Failure(IllegalStringOffset)
    case _ => Success(Null)
  }

  class MessengerPeopleDriver {
    /** The decoded request body (a ParameterBag in BotMan). */
    var payload: PhpArray
    /** The same body, as the Collection the rules read. */
    var event: PhpArray
    /** The 'messengerpeople' section of the BotMan configuration. */
    var config: PhpArray

    /** BotMan builds a driver from the request and its configuration, then calls buildPayload. */
    constructor (body: Json, botmanConfig: PhpArray)
      ensures payload == ArrayCast(body) && event == payload
      ensures config == ArrayCast(Get(botmanConfig, K("messengerpeople")))
    {
      payload, event, config := [], [], botmanConfig;
      new;
      BuildPayload(body);
    }

    /** buildPayload: keeps the decoded body and narrows the configuration to the driver's section. */
    method BuildPayload(body: Json)
      modifies this
      ensures payload == ArrayCast(body) && event == payload
      ensures config == ArrayCast(Get(old(config), K("messengerpeople")))
    {
      payload := ArrayCast(body);
      event := payload;
      config := ArrayCast(Get(config, K("messengerpeople")));
    }

    /** matchesRequest: an inbound chat event, or a handshake. */
    predicate MatchesRequest()
      reads this
      ensures MatchesRequest() ==>
        HasKey(event, K("challenge")) || (HasKey(event, K("messenger_id")) && HasKey(event, K("outgoing")))
    {
      (Truthy(Get(event, K("messenger_id"))) && Get(event, K("outgoing")) == Bool(false))
      || Truthy(Get(event, K("challenge")))
    }

    /** getConversationAnswer. */
    function GetConversationAnswer(message: IncomingMessage): (r: Answer)
      ensures r.message == message && r.text == r.message.text
    {
      Answer(message.text, message)
    }

    /** getMessages: the one message an event carries. */
    function GetMessages(): (r: Result<seq<IncomingMessage>, Error>)
      reads this
      ensures r.Failure? <==> Get(event, K("payload")).Str?
      ensures r.Success? ==> |r.value| == 1 && r.value[0].payload == payload
    {
      match TextOf(Get(event, K("payload")))
      case Failure(e) => Failure(e)
      case Success(text) =>
        Success([IncomingMessage(text, Get(event, K("sender")), Get(event, K("recipient")), payload)])
    }

    /** getUser, reading the body's 'playload' key as the PHP code spells it. */
    function GetUser(message: IncomingMessage): (u: User)
      ensures u.username == u.id && u.lastName == Null
      ensures !HasKey(message.payload, K("playload")) ==> u.id == Null && u.firstName == Null && u.info == []
    {
      UserUnder(message.payload, K("playload"))
    }

    /** getUser as evidently intended: the user data sits under the body's 'payload'. */
    function GetUserFromPayload(message: IncomingMessage): (u: User)
      ensures u.username == u.id && u.lastName == Null
      ensures u.firstName == Get(ArrayCast(Get(ArrayCast(Get(message.payload, K("payload"))), K("user"))), K("name"))
    {
      UserUnder(message.payload, K("payload"))
    }

    /** verifyRequest: the JSON body of the handshake response, or None when none is sent. */
    function VerifyRequest(body: Json): (r: Option<PhpArray>)
      ensures r.Some? <==>
        Truthy(Get(ArrayCast(body), K("challenge"))) && Truthy(Get(ArrayCast(body), K("verification_token")))
      ensures r.Some? ==> |r.value| == 2 && r.value[0] == Entry(K("success"), Bool(true))
    {
      var request := ArrayCast(body);
      if Truthy(Get(request, K("challenge"))) && Truthy(Get(request, K("verification_token"))) then
        Some([Entry(K("success"), Bool(true)), Entry(K("challenge"), Get(request, K("challenge")))])
      else
        None
    }

    /** The recipient a reply goes to: the message's, unless it is '' or null. */
    function Recipient(matching: IncomingMessage): (r: Json)
      reads this
      ensures r == matching.recipient || r == Get(config, K("number_id"))
      ensures (r == Str("") || r == Null) ==>
        (Get(config, K("number_id")) == Str("") || Get(config, K("number_id")) == Null)
    {
      if matching.recipient == Str("") || matching.recipient == Null then Get(config, K("number_id"))
      else matching.recipient
    }

    /** buildServicePayload, with array_merge_recursive as the PHP code calls it. */
    function BuildServicePayload(message: Reply, matching: IncomingMessage, extras: PhpArray): (r: ServicePayload)
      reads this
      ensures ReplyText(message).Some? ==>
        HasKey(r.payload, K("text")) && Get(r.payload, K("text")) == ReplyText(message).value
      ensures ReplyText(message).Some? ==> |r.payload| <= |extras| + 2
    {
      var defaults := ArrayMergeRecursive(TextDefault, extras);
      var body :=
        match message
        case Question(text, _) => Set(defaults, K("text"), text)
        case Outgoing(text, _) => Set(defaults, K("text"), text)
        case Plain(Arr(es)) => ArrayMergeRecursive(es, extras)
        case Plain(v) => Set(defaults, K("text"), v);
      ServicePayload(ToPhpString(Recipient(matching)) + ":" + ToPhpString(matching.sender), body)
    }

    /**
     * buildServicePayload as evidently intended: the caller's parameters
     * override the default 'type' (array_merge); an array reply is still
     * merged recursively.
     */
    function BuildServicePayloadOverriding(message: Reply, matching: IncomingMessage, extras: PhpArray): (r: ServicePayload)
      reads this
      ensures ReplyText(message).Some? ==>
        HasKey(r.payload, K("text")) && Get(r.payload, K("text")) == ReplyText(message).value
      ensures ReplyText(message).Some? ==> |r.payload| <= |extras| + 2
    {
      var defaults := ArrayMerge(TextDefault, extras);
      var body :=
        match message
        case Question(text, _) => Set(defaults, K("text"), text)
        case Outgoing(text, _) => Set(defaults, K("text"), text)
        case Plain(Arr(es)) => ArrayMergeRecursive(es, extras)
        case Plain(v) => Set(defaults, K("text"), v);
      ServicePayload(ToPhpString(Recipient(matching)) + ":" + ToPhpString(matching.sender), body)
    }

    /** isConfigured. */
    predicate IsConfigured()
      reads this
      ensures IsConfigured() ==> HasKey(config, K("client_id")) && HasKey(config, K("client_secret"))
    {
      !Empty(Get(config, K("client_id"))) && !Empty(Get(config, K("client_secret")))
    }
  }

  /** The user whose data sits under body[key]['user']: id, name, no last name, id again as username, and the raw data. */
  function UserUnder(body: PhpArray, key: Key): (u: User)
    ensures u.username == u.id && u.lastName == Null
    ensures !HasKey(body, key) ==> u.id == Null && u.firstName == Null && u.info == []
  {
    var user := ArrayCast(Get(ArrayCast(Get(body, key)), K("user")));
    User(Get(user, K("id")), Get(user, K("name")), Null, Get(user, K("id")), user)
  }

  /** The text a reply puts under 'text', for every reply that is not an array. */
  function ReplyText(message: Reply): Option<Json>
  {
    match message
    case Question(text, _) => Some(text)
    case Outgoing(text, _) => Some(text)
    case Plain(Arr(_)) => None
    case Plain(v) => Some(v)
  }

  /** The position of the first ':' in s, or |s|. */
  function ColonIndex(s: string): (r: nat)
    ensures r <= |s|
    ensures r < |s| ==> s[r] == ':'
    ensures forall j :: 0 <= j < r ==> s[j] != ':'
  {
    if s == [] then 0 else if s[0] == ':' then 0 else 1 + ColonIndex(s[1..])
  }

  /** Splits an identifier back into recipient and sender at its first ':'. */
  function SplitIdentifier(id: string): (string, string)
  {
    var i := ColonIndex(id);
    if i < |id| then (id[..i], id[i + 1..]) else (id, "")
  }
}
