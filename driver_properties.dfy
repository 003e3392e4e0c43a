// What the MessengerPeople driver promises, stated over the model of
// MessengerPeopleDriver and proved: which requests it claims, when it answers
// the handshake and with what, how an event becomes a message and a user, and
// what body and identifier a reply is sent with.

module DriverProperties {
  import opened Wrappers
  import opened Php
  import opened ArrayFunctions
  import opened MessengerPeople

  /** One string-keyed slot, for writing arrays down. */
  function Slot(k: string, v: Json): Entry { Entry(K(k), v) }

  // ---------------------------------------------------------------- matchesRequest

  /**
   * The classifier claims a request exactly when it carries a non-falsy
   * messenger_id together with an 'outgoing' slot holding boolean false, or
   * a non-falsy challenge.
   */
  lemma MatchesRequestIff(d: MessengerPeopleDriver)
    ensures d.MatchesRequest() <==>
      || (Get(d.event, K("messenger_id")) !in Falsy
          && HasKey(d.event, K("outgoing")) && Get(d.event, K("outgoing")) == Bool(false))
      || Get(d.event, K("challenge")) !in Falsy
  {
  }

  /** Echoes of the bot's own messages, events without 'outgoing' and 'outgoing' = 0 are not claimed unless a challenge is present. */
  lemma NonInboundRejected(d: MessengerPeopleDriver)
    requires Get(d.event, K("outgoing")) in {Bool(true), Null, Int(0)}
    requires Get(d.event, K("challenge")) in Falsy
    ensures !d.MatchesRequest()
  {
  }

  // ---------------------------------------------------------------- verifyRequest

  /**
   * The handshake is answered exactly when the body has a non-falsy challenge
   * and a non-falsy verification_token, and the answer is the two-slot object
   * success = true, challenge = the body's challenge.
   */
  lemma VerifyRequestAnswers(d: MessengerPeopleDriver, body: Json)
    ensures var r := d.VerifyRequest(body);
      r.Some? <==> Get(ArrayCast(body), K("challenge")) !in Falsy
                   && Get(ArrayCast(body), K("verification_token")) !in Falsy
    ensures var r := d.VerifyRequest(body);
      r.Some? ==>
        && |r.value| == 2 && UniqueKeys(r.value)
        && Get(r.value, K("success")) == Bool(true)
        && Get(r.value, K("challenge")) == Get(ArrayCast(body), K("challenge"))
        && Get(r.value, K("challenge")) !in Falsy
  {
    var request := ArrayCast(body);
    var r := d.VerifyRequest(body);
    if r.Some? {
      assert r.value[1..] == [Slot("challenge", Get(request, K("challenge")))];
      assert Find(r.value[1..], K("challenge")) == 0;
      assert Find(r.value, K("challenge")) == 1;
    }
  }

  /** A request the driver answers as a handshake is also one it claims. */
  lemma HandshakeIsClaimed(d: MessengerPeopleDriver, body: Json)
    requires d.event == ArrayCast(body)
    requires d.VerifyRequest(body).Some?
    ensures d.MatchesRequest()
  {
  }

  /** The handshake of the platform's webhook registration, as an example. */
  lemma HandshakeExample(d: MessengerPeopleDriver)
    ensures d.VerifyRequest(Arr([Slot("challenge", Str("abc")), Slot("verification_token", Str("xyz"))]))
         == Some([Slot("success", Bool(true)), Slot("challenge", Str("abc"))])
  {
  }

  // ---------------------------------------------------------------- getMessages, getConversationAnswer

  /**
   * An event yields exactly one message: its text is the 'text' slot of the
   * event's 'payload' (null when the slot or the payload is missing), its
   * sender and recipient are the event's, and it carries the whole body. Only
   * a string 'payload' makes the read fail.
   */
  lemma GetMessagesSpec(d: MessengerPeopleDriver)
    ensures d.GetMessages().Failure? <==> Get(d.event, K("payload")).Str?
    ensures d.GetMessages().Success? ==>
      var p := Get(d.event, K("payload"));
      var ms := d.GetMessages().value;
      && |ms| == 1
      && ms[0].text == (if p.Arr? then Get(p.entries, K("text")) else Null)
      && (!HasKey(d.event, K("payload")) ==> ms[0].text == Null)
      && ms[0].sender == Get(d.event, K("sender"))
      && ms[0].recipient == Get(d.event, K("recipient"))
      && ms[0].payload == d.payload
  {
  }

  /** The normalisation example: sender S, recipient R, payload text "hi". */
  lemma NormaliseExample(d: MessengerPeopleDriver)
    requires d.event == [Slot("sender", Str("S")), Slot("recipient", Str("R")), Slot("payload", Arr([Slot("text", Str("hi"))]))]
    ensures d.GetMessages().Success?
    ensures var m := d.GetMessages().value[0];
      m.text == Str("hi") && m.sender == Str("S") && m.recipient == Str("R")
  {
    var e := d.event;
    assert e[1..][0].key == K("recipient");
    assert e[1..][1..][0].key == K("payload");
  }

  /** The answer to a normalised message is the event's payload text, with the message attached. */
  lemma AnswerCarriesText(d: MessengerPeopleDriver)
    requires d.GetMessages().Success?
    ensures var m := d.GetMessages().value[0];
      var a := d.GetConversationAnswer(m);
      && a.message == m
      && a.text == TextOf(Get(d.event, K("payload"))).value
  {
  }

  // ---------------------------------------------------------------- getUser

  /**
   * getUser reads the user under the body's 'playload': its id serves as
   * both id and username, its name as the first name, the last name is null;
   * when 'playload' holds no 'user' (no 'playload', a null one, or one
   * without 'user') every field is null.
   */
  lemma GetUserSpec(d: MessengerPeopleDriver, m: IncomingMessage)
    ensures var u := d.GetUser(m);
      u.id == u.username && u.lastName == Null
    ensures Get(ArrayCast(Get(m.payload, K("playload"))), K("user")) == Null ==>
      var u := d.GetUser(m);
      u.id == Null && u.firstName == Null && u.info == []
    ensures forall p, us ::
      Get(m.payload, K("playload")) == Arr(p) && Get(p, K("user")) == Arr(us) ==>
        var u := d.GetUser(m);
        u.id == Get(us, K("id")) && u.firstName == Get(us, K("name")) && u.info == us
  {
  }

  /**
   * The spelling 'playload' loses the user: for an event whose payload holds
   * the text and the user (id "42", name "Ann"), getUser returns a null id
   * and name, while the corrected reading finds both.
   */
  lemma PlayloadLosesUser(d: MessengerPeopleDriver)
    requires d.event == d.payload
    requires d.event == [Slot("payload", Arr([Slot("text", Str("hi")),
                                             Slot("user", Arr([Slot("id", Str("42")), Slot("name", Str("Ann"))]))]))]
    ensures d.GetMessages().Success?
    ensures var m := d.GetMessages().value[0];
      && d.GetUser(m).id == Null && d.GetUser(m).firstName == Null
      && d.GetUserFromPayload(m).id == Str("42") && d.GetUserFromPayload(m).firstName == Str("Ann")
  {
    var inner := Get(d.event, K("payload")).entries;
    assert inner[1..][0].key == K("user");
    var us := Get(inner, K("user")).entries;
    assert us[1..][0].key == K("name");
  }

  /**
   * The corrected getUser reads the user from the same 'payload' object the
   * message text comes from.
   */
  lemma UserFromSamePayload(d: MessengerPeopleDriver, p: PhpArray, us: PhpArray)
    requires Get(d.event, K("payload")) == Arr(p) && Get(p, K("user")) == Arr(us)
    requires d.event == d.payload
    ensures d.GetMessages().Success?
    ensures var m := d.GetMessages().value[0];
      var u := d.GetUserFromPayload(m);
      && m.text == Get(p, K("text"))
      && u.id == Get(us, K("id")) && u.username == u.id
      && u.firstName == Get(us, K("name")) && u.info == us
  {
  }

  // ---------------------------------------------------------------- buildServicePayload: identifier

  /**
   * The identifier is the recipient, a colon and the sender. The matching
   * message's recipient is replaced by the configured number_id exactly when
   * it is '' or null; any other value, "0" included, is kept.
   */
  lemma IdentifierSpec(d: MessengerPeopleDriver, message: Reply, m: IncomingMessage, extras: PhpArray)
    ensures var recipient := if m.recipient in {Str(""), Null} then Get(d.config, K("number_id")) else m.recipient;
      d.BuildServicePayload(message, m, extras).identifier == ToPhpString(recipient) + ":" + ToPhpString(m.sender)
    ensures m.recipient == Str("0") ==> d.BuildServicePayload(message, m, extras).identifier[..2] == "0:"
  {
  }

  /** The identifier splits back into recipient and sender when the recipient has no colon. */
  lemma IdentifierRoundTrip(d: MessengerPeopleDriver, message: Reply, m: IncomingMessage, extras: PhpArray)
    requires ':' !in ToPhpString(d.Recipient(m))
    ensures SplitIdentifier(d.BuildServicePayload(message, m, extras).identifier)
         == (ToPhpString(d.Recipient(m)), ToPhpString(m.sender))
  {
    var rs, ss := ToPhpString(d.Recipient(m)), ToPhpString(m.sender);
    var id := rs + ":" + ss;
    assert id[|rs|] == ':';
    assert forall j :: 0 <= j < |rs| ==> id[j] == rs[j];
    assert ColonIndex(id) == |rs|;
    assert id[..|rs|] == rs;
    assert id[|rs| + 1..] == ss;
  }

  /** Replying to a normalised event addresses the event's sender, whatever the reply. */
  lemma ReplyAddressesEventSender(d: MessengerPeopleDriver, message: Reply, extras: PhpArray)
    requires d.GetMessages().Success?
    ensures var id := d.BuildServicePayload(message, d.GetMessages().value[0], extras).identifier;
      var suffix := ":" + ToPhpString(Get(d.event, K("sender")));
      |id| >= |suffix| && id[|id| - |suffix|..] == suffix
  {
    var m := d.GetMessages().value[0];
    var rs := ToPhpString(d.Recipient(m));
    var suffix := ":" + ToPhpString(Get(d.event, K("sender")));
    assert (rs + suffix)[|rs|..] == suffix;
    assert rs + ":" + ToPhpString(m.sender) == rs + suffix;
  }

  // ---------------------------------------------------------------- buildServicePayload: body

  /** The default array holds no string key but 'type'. */
  lemma TextDefaultKeys(k: Key)
    ensures HasKey(TextDefault, k) <==> k == K("type")
    ensures Get(TextDefault, k) == if k == K("type") then Str("text") else Null
  {
  }

  /**
   * A Question, an OutgoingMessage or a plain non-array value is sent with
   * its text under 'text', overriding any 'text' the caller passed; 'type' is
   * "text" unless the caller passed one; every other string-keyed parameter
   * of the caller is carried over unchanged.
   */
  lemma TextReplyBody(d: MessengerPeopleDriver, message: Reply, m: IncomingMessage, extras: PhpArray)
    requires ReplyText(message).Some? && UniqueKeys(extras)
    ensures var body := d.BuildServicePayload(message, m, extras).payload;
      HasKey(body, K("text")) && Get(body, K("text")) == ReplyText(message).value
    ensures !HasKey(extras, K("type")) ==>
      Get(d.BuildServicePayload(message, m, extras).payload, K("type")) == Str("text")
    ensures forall k: Key | k.StrKey? && k != K("type") && k != K("text") ::
      var body := d.BuildServicePayload(message, m, extras).payload;
      HasKey(body, k) == HasKey(extras, k) && Get(body, k) == Get(extras, k)
    ensures UniqueKeys(d.BuildServicePayload(message, m, extras).payload)
  {
    var defaults := ArrayMergeRecursive(TextDefault, extras);
    var t := ReplyText(message).value;
    assert d.BuildServicePayload(message, m, extras).payload == Set(defaults, K("text"), t);
    ArrayMergeRecursiveStrKey(TextDefault, extras, K("type"));
    TextDefaultKeys(K("type"));
    SetOther(defaults, K("text"), t, K("type"));
    forall k: Key | k.StrKey? && k != K("type") && k != K("text")
      ensures HasKey(Set(defaults, K("text"), t), k) == HasKey(extras, k)
      ensures Get(Set(defaults, K("text"), t), k) == Get(extras, k)
    {
      ArrayMergeRecursiveStrKey(TextDefault, extras, k);
      TextDefaultKeys(k);
      SetOther(defaults, K("text"), t, k);
    }
    assert UniqueKeys(Renumber(TextDefault)) by {
      assert Renumber(TextDefault) == TextDefault;
    }
  }

  /**
   * With no 'type' and no 'text' among the caller's parameters, the body is
   * exactly the default slot, then the parameters (integer keys renumbered
   * from 0), then the text.
   */
  lemma TextReplyBodyExact(d: MessengerPeopleDriver, message: Reply, m: IncomingMessage, extras: PhpArray)
    requires ReplyText(message).Some? && UniqueKeys(extras)
    requires !HasKey(extras, K("type")) && !HasKey(extras, K("text"))
    ensures d.BuildServicePayload(message, m, extras).payload
         == TextDefault + Renumber(extras) + [Slot("text", ReplyText(message).value)]
  {
    MergeUnderDefault(K("type"), Str("text"), extras);
    RenumberKeepsStrKeys(extras, K("text"));
    FindConcat(TextDefault, Renumber(extras), K("text"));
  }

  /** The send example: "hello" to a message from S to R, with no parameters. */
  lemma PlainTextExample(d: MessengerPeopleDriver)
    ensures d.BuildServicePayload(Plain(Str("hello")), IncomingMessage(Null, Str("S"), Str("R"), []), [])
         == ServicePayload("R:S", [Slot("type", Str("text")), Slot("text", Str("hello"))])
  {
  }

  /** With an empty recipient the identifier starts with the configured number_id. */
  lemma EmptyRecipientFallsBack(d: MessengerPeopleDriver, message: Reply, sender: Json, extras: PhpArray)
    requires Get(d.config, K("number_id")) == Str("49123")
    ensures d.BuildServicePayload(message, IncomingMessage(Null, sender, Str(""), []), extras).identifier
         == "49123:" + ToPhpString(sender)
  {
  }

  /**
   * A 'type' among the caller's parameters does not replace the default:
   * array_merge_recursive collects both into the list ["text", type].
   */
  lemma CallerTypeBecomesList(d: MessengerPeopleDriver, message: Reply, m: IncomingMessage, extras: PhpArray)
    requires ReplyText(message).Some? && UniqueKeys(extras)
    requires HasKey(extras, K("type")) && !Get(extras, K("type")).Arr?
    ensures Get(d.BuildServicePayload(message, m, extras).payload, K("type"))
         == Arr([Entry(IntKey(0), Str("text")), Entry(IntKey(1), Get(extras, K("type")))])
  {
    var defaults := ArrayMergeRecursive(TextDefault, extras);
    ArrayMergeRecursiveStrKey(TextDefault, extras, K("type"));
    TextDefaultKeys(K("type"));
    CollideScalars(Str("text"), Get(extras, K("type")));
    SetOther(defaults, K("text"), ReplyText(message).value, K("type"));
  }

  /**
   * An array reply is merged with the caller's parameters and nothing else:
   * the driver adds neither 'type' nor 'text', and each string key keeps the
   * reply's value, the parameters' value, or both combined by the collision
   * rule.
   */
  lemma ArrayReplyBody(d: MessengerPeopleDriver, es: PhpArray, m: IncomingMessage, extras: PhpArray)
    requires UniqueKeys(extras)
    ensures forall k: Key | k.StrKey? ::
      var body := d.BuildServicePayload(Plain(Arr(es)), m, extras).payload;
      && (HasKey(body, k) <==> HasKey(es, k) || HasKey(extras, k))
      && Get(body, k) == if !HasKey(extras, k) then Get(es, k)
                        else if !HasKey(es, k) then Get(extras, k)
                        else Collide(Get(es, k), Get(extras, k))
  {
    forall k: Key | k.StrKey?
      ensures var body := ArrayMergeRecursive(es, extras);
        && (HasKey(body, k) <==> HasKey(es, k) || HasKey(extras, k))
        && Get(body, k) == if !HasKey(extras, k) then Get(es, k)
                          else if !HasKey(es, k) then Get(extras, k)
                          else Collide(Get(es, k), Get(extras, k))
    {
      ArrayMergeRecursiveStrKey(es, extras, k);
    }
  }

  /** Only the text of a reply is sent: a Question's buttons and an OutgoingMessage's attachment are dropped. */
  lemma SameTextSamePayload(d: MessengerPeopleDriver, a: Reply, b: Reply, m: IncomingMessage, extras: PhpArray)
    requires ReplyText(a).Some? && ReplyText(a) == ReplyText(b)
    ensures d.BuildServicePayload(a, m, extras) == d.BuildServicePayload(b, m, extras)
  {
  }

  // ---------------------------------------------------------------- buildServicePayload, corrected

  /** With array_merge, a caller's 'type' replaces the default, and the rest is as before. */
  lemma OverridingTextReplyBody(d: MessengerPeopleDriver, message: Reply, m: IncomingMessage, extras: PhpArray)
    requires ReplyText(message).Some? && UniqueKeys(extras)
    ensures var body := d.BuildServicePayloadOverriding(message, m, extras).payload;
      && Get(body, K("text")) == ReplyText(message).value
      && Get(body, K("type")) == if HasKey(extras, K("type")) then Get(extras, K("type")) else Str("text")
    ensures forall k: Key | k.StrKey? && k != K("type") && k != K("text") ::
      var body := d.BuildServicePayloadOverriding(message, m, extras).payload;
      HasKey(body, k) == HasKey(extras, k) && Get(body, k) == Get(extras, k)
  {
    var defaults := ArrayMerge(TextDefault, extras);
    var t := ReplyText(message).value;
    assert d.BuildServicePayloadOverriding(message, m, extras).payload == Set(defaults, K("text"), t);
    ArrayMergeStrKey(TextDefault, extras, K("type"));
    TextDefaultKeys(K("type"));
    SetOther(defaults, K("text"), t, K("type"));
    forall k: Key | k.StrKey? && k != K("type") && k != K("text")
      ensures HasKey(Set(defaults, K("text"), t), k) == HasKey(extras, k)
      ensures Get(Set(defaults, K("text"), t), k) == Get(extras, k)
    {
      ArrayMergeStrKey(TextDefault, extras, k);
      TextDefaultKeys(k);
      SetOther(defaults, K("text"), t, k);
    }
  }

  /** The correction leaves an array reply alone: it is still merged recursively with the caller's parameters. */
  lemma OverridingKeepsArrayReply(d: MessengerPeopleDriver, es: PhpArray, m: IncomingMessage, extras: PhpArray)
    ensures d.BuildServicePayloadOverriding(Plain(Arr(es)), m, extras) == d.BuildServicePayload(Plain(Arr(es)), m, extras)
  {
  }

  /** The correction changes nothing for a text reply unless the caller passes a 'type'. */
  lemma OverridingAgreesWithoutType(d: MessengerPeopleDriver, message: Reply, m: IncomingMessage, extras: PhpArray)
    requires ReplyText(message).Some? && UniqueKeys(extras) && !HasKey(extras, K("type"))
    ensures d.BuildServicePayloadOverriding(message, m, extras) == d.BuildServicePayload(message, m, extras)
  {
    forall j | 0 <= j < |extras| && extras[j].key.StrKey?
      ensures !HasKey(TextDefault, extras[j].key)
    {
      TextDefaultKeys(extras[j].key);
    }
    MergesAgreeWithoutCollision(TextDefault, extras);
  }

  // ---------------------------------------------------------------- isConfigured

  /** The driver is configured exactly when neither client_id nor client_secret is falsy (missing, null, '' or "0" among them). */
  lemma IsConfiguredIff(d: MessengerPeopleDriver)
    ensures d.IsConfigured() <==>
      Get(d.config, K("client_id")) !in Falsy && Get(d.config, K("client_secret")) !in Falsy
    ensures !HasKey(d.config, K("client_secret")) ==> !d.IsConfigured()
  {
  }
}
