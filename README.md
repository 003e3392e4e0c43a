# MessengerPeople driver for BotMan, modelled in Dafny

The MessengerPeople driver connects BotMan to the MessengerPeople webhook and
its send-message API. This project models the driver's decision and
translation logic, which lives in `src/MessengerPeopleDriver.php`:

- `buildPayload` keeps the decoded request body and narrows the BotMan
  configuration to its `messengerpeople` section;
- `matchesRequest` claims inbound chat events and handshakes;
- `verifyRequest` decides whether to answer the webhook handshake, and with
  which body;
- `getMessages` and `getConversationAnswer` turn an event into BotMan's
  message and answer;
- `getUser` extracts the user;
- `buildServicePayload` turns a bot reply into the `identifier` and `payload`
  of a send-message call;
- `isConfigured` is the configuration gate.

Files:

- `php.dfy`: the PHP values the driver works on. A decoded JSON value is
  `Json`. A PHP array is an ordered sequence of `key => value` slots. The
  file also gives PHP's truthiness and `empty()`, key lookup with a null
  default (`ParameterBag::get`, `Collection::get`), `$a[k] = v`, `$a[] = v`,
  the `(array)` cast and string conversion.
- `array_merge.dfy`: `array_merge_recursive`, which the driver calls, and
  `array_merge`, which the corrected definitions use. The recursive merge
  is modelled as PHP implements it. The first array is copied with its
  integer keys renumbered. The second array is then folded in slot by slot.
  A string key present in both becomes an array, and the values are merged
  into it recursively or appended to it.
- `messenger_people_driver.dfy`: the class `MessengerPeopleDriver`. Its
  fields are `payload`, `event` and `config`. `buildPayload` is a method
  that assigns them. The rules that read them are functions and predicates.
- `driver_properties.dfy`: the properties of the driver, proved as lemmas.

The decoded body and the BotMan configuration are inputs; JSON decoding and
HTTP are outside the model.

Two behaviours of the code are worth stating plainly:

- A missing `payload.text` is not an error in plain PHP.
  `$this->event->get('payload')['text']` yields null (with a warning) when
  `payload` or its `text` is missing, or when `payload` is null, a boolean or
  a number. Only a string `payload` makes the read fail, because PHP refuses
  a non-numeric string offset. `GetMessages` returns the error
  `IllegalStringOffset` in that case.
- `array_merge_recursive` does not let a caller's scalar `type` overwrite
  the default. It collects the default and the caller's value into the list
  ["text", type] (see Findings).

## Model

| member | source | states |
|---|---|---|
| MessengerPeople.MessengerPeopleDriver.constructor | src/MessengerPeopleDriver.php:26-31 | a driver built from a body and the BotMan configuration holds the body cast to an array as payload and event, and the `messengerpeople` section cast to an array as config |
| MessengerPeople.MessengerPeopleDriver.BuildPayload | src/MessengerPeopleDriver.php:26-31 | payload is the `(array)` cast of the decoded body (null gives the empty array); event holds the same slots; config becomes the old config's `messengerpeople` entry cast to an array, empty when it is missing |
| MessengerPeople.MessengerPeopleDriver.MatchesRequest | src/MessengerPeopleDriver.php:38-42 | a request is claimed only if it has a `challenge` slot, or both a `messenger_id` and an `outgoing` slot |
| MessengerPeople.MessengerPeopleDriver.GetConversationAnswer | src/MessengerPeopleDriver.php:48-51 | the answer carries the message, and its text is that message's text |
| MessengerPeople.MessengerPeopleDriver.GetMessages | src/MessengerPeopleDriver.php:58-68 | reading the event fails exactly when its `payload` is a string; otherwise it yields one message carrying the whole body |
| MessengerPeople.MessengerPeopleDriver.GetUser | src/MessengerPeopleDriver.php:82-94 | the username is the id and the last name is null; without a `playload` slot id, first name and raw data are empty |
| MessengerPeople.MessengerPeopleDriver.GetUserFromPayload | src/MessengerPeopleDriver.php:84-93 | the corrected reading: the username is the id, the last name is null, and the first name is `payload.user.name` |
| MessengerPeople.MessengerPeopleDriver.VerifyRequest | src/MessengerPeopleDriver.php:114-123 | an answer exists exactly when `challenge` and `verification_token` are truthy; it has two slots, the first `success` => true |
| MessengerPeople.MessengerPeopleDriver.Recipient | src/MessengerPeopleDriver.php:133-136 | the recipient is the message's or the configured `number_id`, and is '' or null only if the fallback value is |
| MessengerPeople.MessengerPeopleDriver.BuildServicePayload | src/MessengerPeopleDriver.php:131-160 | for every reply that is not an array, the body holds the reply's text under `text` and has at most two slots more than the caller's parameters |
| MessengerPeople.MessengerPeopleDriver.BuildServicePayloadOverriding | src/MessengerPeopleDriver.php:138-153 | the corrected definition keeps the same guarantees on `text` and on the body's size |
| MessengerPeople.MessengerPeopleDriver.IsConfigured | src/MessengerPeopleDriver.php:180-183 | a configured driver has both a `client_id` and a `client_secret` slot |
| ArrayFunctions.ArrayMergeRecursive | src/MessengerPeopleDriver.php:151 | the merge keeps at least as many slots as its first array and at most the slots of both arrays together |
| ArrayFunctions.ArrayMerge | src/MessengerPeopleDriver.php:138-140 | the corrected merge keeps at least as many slots as its first array and at most the slots of both arrays together |
| DriverProperties.MatchesRequestIff | src/MessengerPeopleDriver.php:38-42 | a request is claimed exactly when `messenger_id` is not falsy and an `outgoing` slot holds boolean false, or `challenge` is not falsy |
| DriverProperties.NonInboundRejected | src/MessengerPeopleDriver.php:40-41 | `outgoing` = true, a missing `outgoing` and `outgoing` = 0 are all rejected unless `challenge` is truthy |
| DriverProperties.VerifyRequestAnswers | src/MessengerPeopleDriver.php:114-123 | a handshake answer is produced exactly when `challenge` and `verification_token` are both truthy; the answer has exactly two slots, `success` = true and `challenge` = the body's challenge |
| DriverProperties.HandshakeIsClaimed | src/MessengerPeopleDriver.php:117 | every body that gets a handshake answer is also claimed by `matchesRequest` |
| DriverProperties.HandshakeExample | src/MessengerPeopleDriver.php:117-121 | the body {challenge: "abc", verification_token: "xyz"} is answered with {success: true, challenge: "abc"} |
| DriverProperties.GetMessagesSpec | src/MessengerPeopleDriver.php:58-68 | an event yields exactly one message; its text is `payload.text` (null when missing); sender and recipient are the event's; it carries the whole body; it fails exactly when `payload` is a string |
| DriverProperties.NormaliseExample | src/MessengerPeopleDriver.php:60-67 | the event {sender: S, recipient: R, payload: {text: "hi"}} yields the message "hi" from S to R |
| DriverProperties.AnswerCarriesText | src/MessengerPeopleDriver.php:48-51 | the answer to the normalised message has the event's payload text and carries that message |
| DriverProperties.GetUserSpec | src/MessengerPeopleDriver.php:82-94 | the user's id and username are both `playload.user.id`; the first name is `playload.user.name`; the last name is null; the raw data is the user array; when there is no user (no `playload`, a null one, or no or a null `user` in it) the id, username and name are null and the raw data is empty |
| DriverProperties.PlayloadLosesUser | src/MessengerPeopleDriver.php:84 | for an event whose `payload` holds the user (id "42", name "Ann"), `getUser` as written gives a null id and name, and the corrected reading gives "42" and "Ann" |
| DriverProperties.UserFromSamePayload | src/MessengerPeopleDriver.php:84-93 | the corrected `getUser` reads id, name and username from the same `payload` object the message text comes from |
| DriverProperties.IdentifierSpec | src/MessengerPeopleDriver.php:133-136 | the identifier is recipient, ':' and sender; the recipient is replaced by the configured `number_id` exactly when it is '' or null; "0" is kept |
| DriverProperties.IdentifierRoundTrip | src/MessengerPeopleDriver.php:157 | splitting the identifier at its first ':' gives back the recipient and the sender, whenever the recipient has no ':' |
| DriverProperties.ReplyAddressesEventSender | src/MessengerPeopleDriver.php:63 | replying to a normalised event sends to an identifier that ends in ':' and that event's sender, whatever the reply |
| DriverProperties.EmptyRecipientFallsBack | src/MessengerPeopleDriver.php:134-135 | with an empty recipient and `number_id` "49123" configured, the identifier is "49123:" followed by the sender |
| DriverProperties.TextDefaultKeys | src/MessengerPeopleDriver.php:138-140 | the default payload has no key but `type`, and `type` is "text" |
| DriverProperties.TextReplyBody | src/MessengerPeopleDriver.php:138-153 | for a Question, an OutgoingMessage or a plain value, `text` is the message's text, overriding the caller's; `type` is "text" when the caller gave none; every other string key of the caller is carried over unchanged; no key repeats |
| DriverProperties.TextReplyBodyExact | src/MessengerPeopleDriver.php:138-153 | when the caller passes neither `type` nor `text`, the body is exactly `type` => "text", then the caller's parameters with integer keys renumbered from 0, then `text` |
| DriverProperties.PlainTextExample | src/MessengerPeopleDriver.php:131-160 | "hello" in reply to a message from S to R, with no parameters, is sent as identifier "R:S" and payload {type: "text", text: "hello"} |
| DriverProperties.CallerTypeBecomesList | src/MessengerPeopleDriver.php:138-140 | a non-array `type` from the caller does not replace the default: the body's `type` becomes the list ["text", caller's type] |
| DriverProperties.ArrayReplyBody | src/MessengerPeopleDriver.php:150-151 | an array reply is only merged with the caller's parameters: no `type` or `text` is added; each string key holds the reply's value, the caller's value, or both combined by the collision rule |
| DriverProperties.SameTextSamePayload | src/MessengerPeopleDriver.php:146-149 | replies with the same text produce the same call; a Question's buttons and an OutgoingMessage's attachment are not sent |
| DriverProperties.OverridingTextReplyBody | src/MessengerPeopleDriver.php:138-149 | with `array_merge`, the caller's `type` replaces the default, `text` is the message's, and other caller keys are carried over |
| DriverProperties.OverridingKeepsArrayReply | src/MessengerPeopleDriver.php:150-151 | the corrected definition sends an array reply exactly as the code does, merged recursively with the caller's parameters |
| DriverProperties.OverridingAgreesWithoutType | src/MessengerPeopleDriver.php:138-140 | the corrected definition sends the same call as the code whenever the caller passes no `type` |
| DriverProperties.IsConfiguredIff | src/MessengerPeopleDriver.php:180-183 | the driver is configured exactly when neither `client_id` nor `client_secret` is falsy; a missing `client_secret` makes it unconfigured |
| ArrayFunctions.ArrayMergeRecursiveStrKey | src/MessengerPeopleDriver.php:138 | for one string key, `array_merge_recursive($a, $b)` keeps $a's value if $b lacks the key, takes $b's if $a lacks it, and otherwise combines the two into an array |
| ArrayFunctions.CollideScalars | src/MessengerPeopleDriver.php:139 | two non-array values under one string key end up as the list [first, second] |
| ArrayFunctions.MergeUnderDefault | src/MessengerPeopleDriver.php:138-140 | merging parameters that do not mention the default key gives the default slot followed by the parameters, integer keys renumbered from 0 |
| ArrayFunctions.RenumberAt | src/MessengerPeopleDriver.php:151 | the first array of a merge keeps every string-keyed slot in place, and its n-th integer-keyed slot gets key n |
| ArrayFunctions.MergesAgreeWithoutCollision | src/MessengerPeopleDriver.php:138-140 | `array_merge` and `array_merge_recursive` give the same array when the second array repeats no string key of the first |
| ArrayFunctions.ArrayMergeStrKey | src/MessengerPeopleDriver.php:138 | for one string key, `array_merge($a, $b)` takes $b's value when $b has the key and $a's otherwise |
| Php.Truthy | src/MessengerPeopleDriver.php:40-41 | PHP's conversion to bool is false for exactly null, false, 0, '', "0" and the empty array, so `empty()` holds of exactly these |
| Php.Set | src/MessengerPeopleDriver.php:147 | `$payload['text'] = v` makes `text` hold v, overwrites an existing slot in place or adds one at the end, leaves every other slot alone, and keeps keys unique |

## Left out

- `getAccessToken` (src/MessengerPeopleDriver.php:96-108) is not modelled: it is an HTTP request to the token endpoint and the decoding of its response.
- `sendPayload` and `sendRequest` (src/MessengerPeopleDriver.php:166-175, 193-202) are not modelled: they are HTTP requests through BotMan's HTTP client.
- `json_decode` is left out. The model takes the decoded body as a `Json` value. A body that is not valid JSON is the same as a null body.
- `ParameterBag` and `Collection` are modelled only as the arrays they hold, read through `Get`.
- Writing the handshake response (`JsonResponse::create(...)->send()`) is I/O. `VerifyRequest` returns only the decision and the response body.
- `isBot` is the constant false and has nothing to verify.
- The Laravel service provider is not part of this model. It only registers the driver and publishes its configuration.
- BotMan's `IncomingMessage`, `Answer`, `User`, `Question` and `OutgoingMessage` are plain datatypes. Their methods, a Question's buttons and an OutgoingMessage's attachment are not modelled.
- JSON numbers with a fraction or an exponent are left out (no floating point). Integers are unbounded.
- `NextIndex`, the key `$a[] = v` picks, follows PHP before 8.3: the key is never below 0 when the array has only negative integer keys.
- PHP's warnings are dropped. The read at src/MessengerPeopleDriver.php:62 warns about an undefined key or an offset on null. The concatenation at src/MessengerPeopleDriver.php:157 warns about an array-to-string conversion. Hosts that turn warnings into exceptions fail there, Laravel among them, where the package registers itself. In such a host a missing `payload.text` fails, but the model yields null.
- `GetMessages` models PHP 8, where reading `['text']` of a non-numeric string fails. PHP 7 instead warns and yields the string's first character.
- Lemmas about merged arrays require that the caller's parameters have unique keys (`UniqueKeys`). Every PHP array has that property, but the sequence model does not enforce it.

## Findings

| source | as written | input that shows it | evidently intended | confidence | as-written member | corrected member |
|---|---|---|---|---|---|---|
| src/MessengerPeopleDriver.php:84 | `getUser` reads the user from the body's `playload` key, which no event has | the event {"payload": {"text": "hi", "user": {"id": "42", "name": "Ann"}}} gives a user whose id and name are null | read the user from `payload`, the object the message text comes from | likely; not executed | DriverProperties.PlayloadLosesUser | DriverProperties.UserFromSamePayload |
| src/MessengerPeopleDriver.php:138-140 | `array_merge_recursive` puts the caller's parameters over the default, so a caller's `type` is appended to the default instead of replacing it | additional parameters ['type' => 'image'] with the reply "hi" give the payload `type` ["text", "image"] | the caller's `type` replaces the default "text", as `array_merge` does | plausible; not executed | DriverProperties.CallerTypeBecomesList | DriverProperties.OverridingTextReplyBody |

`MessengerPeople.MessengerPeopleDriver.GetUser` and `BuildServicePayload` model
the code as written. `GetUserFromPayload` and `BuildServicePayloadOverriding`
are the corrected definitions.
