# HTTP garage door controller accessory — a Dafny model

The accessory publishes a garage door (and optionally its light) to
HomeKit. It drives the door by HTTP requests to a controller on the local
network. Three API profiles are supported:

- the vendor's own "HttpGarageDoorController" API, which is JSON with fixed endpoints;
- a configurable "Json" API;
- a configurable "Generic" (plain-text) API.

Requests can be signed with OAuth 1.0a.

The model covers the sequential logic of `index.js`:

- configuration validation and profile resolution (`Config`);
- the mutually recursive door setters and the light setter (`StateMachine`);
- the door and light decoders (`DoorStates`, `Json`);
- the checks made on every HTTP response (`Response`);
- the absolute URL and the OAuth signature (`Percent`, `CodeUnits`, `OAuth`, `Request`);
- the HomeKit getters and commands (`Commands`);
- the status poll and the accessory's life from start-up (`Poll`).

The model is written as pure functions on immutable records. Each setter returns the new record together with the values it pushes to HomeKit. The clock, the HMAC function, the nonce and what the HTTP client reports are all parameters. The parsed JSON body is a `JValue`. An exception the code does not catch is an explicit fault outcome.

The model keeps these behaviours of the code:

- An SSL connection is addressed with the literal scheme `httpSsl://` (index.js:708).
- PLAINTEXT signing calls an undefined `base64encode` and throws (index.js:763). It does not produce a signature.
- The Generic profile stores its success contents on the accessory (index.js:282-288), but the commands read them from the API block (index.js:404, 450). A command therefore never checks the body, so a body such as "ERR" is accepted.
- JSON success checks use loose equality with `true` (index.js:811). The numbers 1 and "1" pass; the string "true" does not.
- The staleness error is raised whenever anything at all is polled (`_hasStates`, index.js:368, 380, 431). This is a stricter condition than "the door is polled".
- Polling does not always survive a bad answer. A door field that is not a string, a failure to build a request, or a dual answer for an unpublished light throws inside a locked callback. The lock is never released, so polling stops.
- Whenever a poll runs and the profile is not dual-state, the light half runs for a published light, even without a light-state URL. In that case it re-sets the current value, which refreshes its timestamp (index.js:487-499, 554-556).

## Model

| member | source | states |
|---|---|---|
| Strings.TrimIgnoresPadding | index.js:538 | `trim` removes any JavaScript whitespace padding on either side and nothing else |
| Strings.TrimRemovesOnlyWhitespace | index.js:538 | the trimmed text is a slice of the input with only whitespace cut off on each side |
| Strings.IndexOf | index.js:817 | `indexOf` is -1 exactly when the content does not occur, else the first position where it occurs |
| Strings.SplitJoin | index.js:718-723 | splitting on `&` undoes joining pieces that contain no `&` |
| Json.Property | index.js:809 | a value owns exactly its object fields, or its array or string indices and `length`; an object field reads as its value, `length` as the number of elements or characters, and any other owned key as an element or a one-character string |
| Json.IndexedProperties | index.js:526 | the `i`-th element of an array and the `i`-th character of a string are read under the key `String(i)` |
| Json.PropertyExamples | index.js:526 | "0" reads "OPEN" from `["OPEN"]` and "length" reads 1; "00" and " 0" are not keys; "1" reads "n" from "on"; a number owns nothing |
| Json.IndexKeyOfIndex | index.js:534 | every index below the length is an own key under its decimal form |
| Json.LooseTruthExamples | index.js:535 | `== true` accepts `true`, the number 1 and the string "1", and rejects "true", `false`, `null` and a missing field |
| Json.LooseTruthOfArrays | index.js:569 | `== true` accepts a one-element array holding " 1 " or 1, and rejects an array holding `true` and a two-element array |
| Json.LooseTruthOfRadixes | index.js:569 | `== true` accepts the string "0x1" and rejects "+0x1", which `ToNumber` does not read |
| Json.WrappedLooseTruth | index.js:569 | a one-element array is loosely true exactly when its element is, except that an array holding a boolean never is |
| Json.NumberTextIgnoresPadding | index.js:569 | whitespace around a string never changes whether it converts to one |
| DoorStates.DoorStateToState | index.js:665-683 | after upper-casing, OPEN/CLOSED/OPENING/CLOSING name themselves, UNKNOWN and the STOPPED words all name STOPPED, and nothing else is a door state |
| DoorStates.DoorStateRoundTrip | index.js:640-683 | decoding the name of a door state gives that state back |
| DoorStates.DoorDecodingIgnoresCase | index.js:666 | two words that differ only in ASCII letter case decode alike |
| DoorStates.DecodeJsonDoor | index.js:526-531 | a JSON door field that is not a string throws; a string decodes exactly when it names a door state, without trimming, and then to the state `_doorStateToState` gives it |
| DoorStates.TextDoorIgnoresPadding | index.js:538-539 | a text body decodes the same with or without surrounding whitespace |
| DoorStates.DoorDecodingExamples | index.js:526-543 | "opening" and " Opening " give OPENING, "stopped-closing" gives STOPPED, "ajar" is not a state, and a JSON " open" is not trimmed |
| DoorStates.TextLightOnExactly | index.js:571-572 | a text light is on exactly when the body is one of the words true, yes, on or 1, in any ASCII letter case, with only whitespace around it |
| DoorStates.TextLightIgnoresPadding | index.js:571 | surrounding whitespace never changes the text light |
| DoorStates.TextLightIgnoresCase | index.js:571 | two bodies that differ only in ASCII letter case give the same light |
| DoorStates.LightStateRoundTrip | index.js:657-663 | a text body holding the light's ON/OFF name decodes to that light state |
| StateMachine.SetDoorCurrent | index.js:579-602 | the timestamp is always refreshed; an unchanged value pushes nothing; a change stores the state and its obstruction flag, pushes both, and moves the target to the implied state through at most one nested call |
| StateMachine.SetDoorTarget | index.js:604-624 | the mirror of the current-state setter, with OPEN implying OPENING and CLOSED implying CLOSING |
| StateMachine.SetLightCurrent | index.js:626-638 | the timestamp is refreshed; the light state is pushed exactly when it changes or on the initial push |
| StateMachine.SettersKeepObstructionConsistent | index.js:589-593 | both door setters keep obstruction equal to "the door is stopped" |
| StateMachine.CurrentStateDrivesTarget | index.js:595-601 | a reported OPEN/OPENING makes the target OPEN, CLOSED/CLOSING makes it CLOSED, STOPPED leaves it alone, within two setter frames |
| StateMachine.TargetDrivesCurrent | index.js:614-623 | a new OPEN target makes the door OPENING, a new CLOSED target CLOSING, without obstruction, within two frames |
| StateMachine.SettersAreIdempotent | index.js:581-585 | repeating a setter with the same value only refreshes its timestamp and pushes nothing |
| StateMachine.InitialDoor | index.js:344-346 | the door starts CLOSED with target CLOSED and no obstruction, and all three are pushed once |
| StateMachine.InitialLight | index.js:355-356 | the light starts off and is pushed once |
| StateMachine.ObstructionInvariant | index.js:579-624 | after any sequence of setter calls from the initial state, obstruction means "stopped" |
| Percent.PercentEncode | index.js:57-59 | the output holds only RFC 3986 unreserved characters and `%` escapes |
| Percent.Escape | index.js:57-59 | an escape is `%` and two upper-case hex digits whose value is the byte |
| Percent.PercentEncodeIsRfc5849 | index.js:57-59 | the two-step encoding equals the percent-encoding of section 3.6 of RFC 5849: unreserved characters kept, every other UTF-8 byte escaped |
| Percent.PercentEncodeKeepsExactlyUnreserved | index.js:57-59 | a character is left as it is exactly when it is unreserved |
| Percent.DecodeUndoesPercentEncode | index.js:57-59 | percent-decoding gives back any ASCII text that was encoded |
| Percent.DigitsAreUnchanged | index.js:735-736 | the encoded timestamp is its decimal digits |
| CodeUnits.StrLessIsCodeUnitOrder | index.js:741 | the key order used is JavaScript's default sort order on UTF-16 code units |
| CodeUnits.StrLessTotal | index.js:741 | two different keys are always ordered |
| CodeUnits.StrLessTransitive | index.js:741 | the key order is transitive |
| Config.Issues | index.js:69-289 | a field is reported exactly when its rule is broken |
| Config.ValidMeansNoRuleBroken | index.js:293-296 | the accessory starts exactly when no rule is broken |
| Config.MethodWhitelistIsExact | index.js:183 | a method is accepted exactly when it is GET, POST or PUT |
| Config.ValidConnection | index.js:69-141 | a started accessory has a name, a host, a positive port, non-zero intervals, a header value with a header name, and complete OAuth credentials |
| Config.ValidProfile | index.js:144-152 | a started accessory has an API block with a known profile |
| Config.ValidDoorEndpoints | index.js:180-217 | a configurable profile has whitelisted door commands with URLs, and either a state method or a positive operation time |
| Config.ValidLightEndpoints | index.js:219-252 | a configurable profile with a light has whitelisted light commands with URLs and a state method for a state URL |
| Config.ValidJsonFields | index.js:256-279 | a Json profile names the state fields for the state URLs it has |
| Config.Resolve | index.js:154-290 | the vendor profile forces plain HTTP and HMAC-SHA256 and fixed endpoints; the configurable profiles keep the configured scheme; OAuth and header follow their switches |
| Config.VendorProfileIsFixed | index.js:155-176 | every vendor configuration gets the same endpoints and polls door and light through one URL |
| Config.OpenLoopHasDuration | index.js:180-193 | an unpolled door has a positive operation time; only an empty state URL is polled without a method |
| Config.GenericIsNeverDual | index.js:685-703 | the Generic profile is not a JSON API and never answers both axes in one response |
| Response.Classify | index.js:787-823 | transport failure, a non-2xx status, a JSON parse failure, a missing or non-true field and missing content are each reported exactly in their own case; otherwise the parsed value or the body is passed on |
| Response.AcceptedIffExpectationsHold | index.js:796-821 | a 2xx response is accepted exactly when the body parses, has the expected field loosely equal to `true` when asked (JSON), or contains the expected content (text) |
| Response.NoExpectationAcceptsDelivered | index.js:808-820 | with nothing expected, every 2xx response that parses is accepted |
| Response.NullBodyIsPassedAsText | index.js:826 | a JSON body parsing to `null` is handed on as the raw text |
| OAuth.QueryRoundTrip | index.js:718-723 | reading back the query string of distinct, separator-free parameters gives the same parameters in the same order |
| OAuth.LaterPieceWins | index.js:722 | a repeated query key keeps its last value |
| OAuth.QueryParametersClean | index.js:714-724 | parameters read from a query hold no `&` or `=` |
| OAuth.OAuthParametersSet | index.js:726-736 | the six oauth parameters override the query's, and every other query parameter keeps its value |
| OAuth.SortByKey | index.js:738-742 | the parameters come out sorted by key, with the same set of keys |
| OAuth.SortPermutes | index.js:738-742 | sorting only reorders: the result holds exactly the same entries, each as often |
| OAuth.InsertAddsEntry | index.js:738-742 | placing one more key into a sorted list adds exactly that entry |
| OAuth.SortKeepsLookups | index.js:738-742 | sorting changes no parameter's value |
| OAuth.ParameterStringIsQueryString | index.js:744-750 | the parameter string is the sorted `k=v` pairs joined by `&`, without a trailing `&` |
| OAuth.SignatureBaseParts | index.js:753 | the base string splits at `&` into the encoded method, base URL and parameter string |
| OAuth.SigningKeyParts | index.js:752 | the key splits at `&` into the encoded consumer secret and token secret |
| OAuth.Sign | index.js:755-764 | HMAC-SHA1 and HMAC-SHA256 sign the base string with the key; PLAINTEXT throws |
| OAuth.SignedUrl | index.js:710-768 | signing fails exactly for PLAINTEXT |
| OAuth.SignedQueryReadsBack | index.js:766-768 | the signed URL is the base URL, `?`, and a query that reads back as the sorted signed parameters followed by `oauth_signature` with the encoded signature |
| Request.PortSuffix | index.js:708 | the port is omitted exactly for 80 without SSL and 443 with SSL |
| Request.BaseUrlParts | index.js:708 | the URL ends with the configured path and omits the port exactly for the default one |
| Request.SchemeIsLiteral | index.js:708 | the scheme is `httpSsl://` with SSL and `http://` without |
| Request.SplitAtQuery | index.js:714-717 | the URL is the base, `?` and the query when there is a `?`, and the base has no `?` |
| Request.SplitAtQueryOfJoin | index.js:714-717 | splitting a base without `?` joined to a query gives both back |
| Request.MethodNameIsUpperCase | index.js:707 | upper-casing a whitelisted method changes nothing |
| Request.BuildRequest | index.js:705-785 | an undefined method throws, as does PLAINTEXT; otherwise the request carries the method, the timeout, the header, and the base URL when OAuth is off |
| Request.SignedTargetReadsBack | index.js:710-769 | with OAuth the request goes to the configured base URL and its query reads back as the signed parameters plus the signature |
| Request.RequestUsesTarget | index.js:772-776 | the request's URL is the signed or unsigned target URL |
| Commands.GetDoorCurrent | index.js:364-374 | the getter always answers the last known state |
| Commands.GetObstruction | index.js:376-386 | the obstruction getter answers the last flag, stale exactly when the door state is |
| Commands.GetDoorTarget | index.js:388-391 | the target is never reported stale |
| Commands.UnknownExactlyWhenStale | index.js:368 | a reading is flagged unknown exactly when something is polled and it is three poll intervals old |
| Commands.FreshAfterReport | index.js:368 | right after a setter runs, the door, obstruction and light readings are not stale |
| Commands.UnpolledDoorGoesUnknown | index.js:368 | a door that is never polled still goes stale when only the light is polled |
| Commands.NegativePollIsAlwaysUnknown | index.js:364-436 | with a negative poll interval, the door state, the obstruction flag and the light are each reported unknown from the moment they are set |
| Commands.DoorCommand | index.js:393-425 | an already requested target sends nothing; a failure changes nothing; success applies the target setter and defers the completion exactly when the door is not polled |
| Commands.DoorCommandDoneIff | index.js:396-412 | a door command succeeds exactly when the target differs, the request builds, and the response meets the success field check |
| Commands.DoorCommandSendsEndpoint | index.js:404 | the command is sent to the open or close endpoint under its method |
| Commands.DoorCommandIsIdempotent | index.js:396-399 | the same command again, after a success, sends nothing and changes nothing |
| Commands.RunDeferred | index.js:416-418 | the deferred completion makes the current state the target |
| Commands.OpenLoopCommandCompletes | index.js:412-421 | on an unpolled door an open command shows OPENING at once and OPEN once the timer fires; close is the same with CLOSING and CLOSED |
| Commands.ClosedLoopCommandStartsNoTimer | index.js:415 | a polled door never defers a completion |
| Commands.GenericContentIsNeverChecked | index.js:404 | on the Generic profile every 2xx answer to a door command is a success, whatever its body |
| Commands.LightCommand | index.js:439-461 | an unchanged light sends nothing; a failure changes nothing; success applies the light setter; a missing endpoint throws |
| Commands.LightCommandDoneIff | index.js:442-458 | a light command succeeds exactly when the state differs, the request builds and the response passes the success field check |
| Commands.LightCommandIsIdempotent | index.js:442-445 | after a success the light is pushed once and the same command again is a no-op |
| Commands.CommandsKeepObstructionConsistent | index.js:412-418 | commands and deferred completions keep obstruction equal to "stopped" |
| Poll.DualLight | index.js:534-536 | a dual answer carries the light exactly on a dual JSON API whose response data (the parsed value, or the body text standing in for `null`) owns the light field |
| Poll.DetermineDoor | index.js:507-549 | an unpolled door answers its current state; otherwise one request is sent unless building it throws; a failed exchange answers its error, and a delivered response answers what the response decoder makes of it; a light value comes only from a dual configuration |
| Poll.DecodeDoorAnswer | index.js:525-546 | on a JSON API the answer is reported exactly when the door field decodes, throws exactly when it is not a string, and reports the decoded state with the dual light; on a text API it is reported exactly when the body names a state, and then that state without a light |
| Poll.JsonDoorReport | index.js:525-536 | the door field of the response data is reported exactly when it decodes, with the dual light; a field that is not a string throws |
| Poll.TextDoorReport | index.js:537-546 | the body is reported exactly when, upper-cased and trimmed, it names a door state, and then as that state without a light; it never throws |
| Poll.DetermineLight | index.js:551-577 | an unpolled light answers its current state without a request; otherwise one request is sent unless building it throws; a failed exchange answers its error; a delivered JSON response answers the loose truth of the light field and a delivered text response answers whether the body is a truthy word with only whitespace around it |
| Poll.DoorPart | index.js:468-484 | an error leaves the accessory alone; a report sets the door to the door setter's result for the reported state, with the door's pushes first; a report without a light leaves the light alone; a dual report sets a published light to the light setter's result and throws when no light is published |
| Poll.LightPart | index.js:487-499 | an error leaves the accessory alone; a report runs the light setter |
| Poll.CheckStates | index.js:463-505 | a poll sends at most two requests and keeps "a light record exists exactly when a light is published" and the obstruction invariant; the door ends as the door half left it; a dual profile or a door half that throws ends the poll there; otherwise a published light ends as the light setter leaves it for the light answer, or unchanged when that answer is an error, and the poll throws exactly when the light half does |
| Poll.FailedPollChangesNothing | index.js:471-472 | a poll whose exchanges fail leaves the state alone and pushes nothing |
| Poll.DualPollUpdatesBoth | index.js:533-536 | one response carrying both fields sets the door and the light with a single request |
| Poll.VendorWithoutLightFaults | index.js:476-478 | the vendor profile without a published light updates the door, then throws pushing the light |
| Poll.NonTextDoorFieldFaults | index.js:526 | a JSON door field that is not a string ends the poll in an exception with nothing changed |
| Poll.TextPollSetsDoorAndLight | index.js:468-499 | a Generic poll with both state URLs and two delivered responses sends two requests, sets the door as the setter does for the state the door body names, and sets the light as the setter does for "the light body is a truthy word" |
| Poll.JsonPollSetsDoorAndLight | index.js:468-499 | a JSON poll with separate state URLs whose responses hold the fields sends two requests, sets the door as the setter does for the state the door field names, and the light as the setter does for the loose truth of the light field |
| Poll.UnpolledLightIsRefreshed | index.js:487-499 | with a polled door, no light-state URL and a profile that is not dual-state, a poll whose door half did not throw still runs the light half: it sends nothing more, pushes nothing more and only refreshes the light's timestamp |
| Poll.Initialize | index.js:329-362 | the accessory starts CLOSED/CLOSED, with a light record, off, exactly when a light is published |
| Poll.ObstructionAlwaysConsistent | index.js:344-346 | over any polls, commands and timers from start-up, obstruction is reported exactly when the door is stopped |

## Left out

- The locks `checkStateMutex` and `httpRequestMutex` (index.js:24-26) are not modelled. Each operation is one sequential step, and one request is in flight at a time. A fault leaves a lock held, so later polls or requests in the same run never happen. The model reports the fault but does not model that wait.
- `setTimeout` is not modelled as time. The poll's rescheduling (index.js:501-504) appears only as a sequence of poll events. The open-loop completion (index.js:420) is a `deferred` flag plus a timer event that may fire at any time, so the runs include every run the plugin can make.
- The `request` library and `JSON.parse` are not modelled. What the client reports, and whether the body parsed, are inputs.
- `createHmac`, `randomBytes` and base64 are not modelled. HMAC is a function parameter and the nonce is a string parameter.
- `Date.now()` and `new Date()` are not modelled. The time is a parameter: the OAuth timestamp is a natural number of seconds, and the other clocks are milliseconds.
- Homebridge service and characteristic registration, `getServices` (index.js:300-327) and logging are not modelled. A push to a characteristic is a `Notification` value.
- `parseInt` and the loose-equality coercions of the configuration are not modelled. Configuration values are already typed, and a missing key is `None`.
- `Json.LooselyTrue` does not model decimal exponents. Strings such as "1e0", "10e-1" and ".1e1" convert to one, but the model rejects them. The hexadecimal, octal and binary literals, a plus sign and one-element arrays are modelled.
- `Json.StringNumberIsOne` reads a decimal string exactly, not after rounding to a double. A string such as "1.0000000000000001" or "0.99999999999999999" rounds to one and is loosely true in JavaScript, but the model rejects it. A JSON number is not affected: `JNum` holds the double `JSON.parse` already produced.
- `Json.LooselyTrue` does not model an object, or an array element that is an object, carrying its own `toString` key. That key hides the inherited method, so the conversion to a primitive throws a TypeError. The model gives "not one" instead.
- `Response.Classify` does not model a JSON reply that owns a `hasOwnProperty` key, such as `{"hasOwnProperty": 0, "door-state": "OPEN"}`. The own key hides the inherited method, so the field check (index.js:809) and the dual light check (index.js:534) throw a TypeError. The throw at index.js:809 comes before the request lock is released (index.js:825), so no request, poll or command completes afterwards. The model checks the field as for any other object: here it accepts the reply, and a poll sets the door to OPEN.
- `toUpperCase` and `toLowerCase` map only ASCII letters. Non-ASCII case mappings (for example a dotless `ı` becoming `I`) are not modelled.
- Strings are sequences of Unicode scalar values, so lone UTF-16 surrogates cannot be expressed.
- `Json.Property` counts a string's length and indices in Unicode scalar values, not UTF-16 code units. A character outside the Basic Multilingual Plane is therefore one index in the model and two in JavaScript. Array indices are not capped at 2^32 - 2.
- Inherited properties such as `constructor` are not modelled. They lead to the same outcome in the model: a thrown TypeError for the door, and "off" for the light.
- A `__proto__` key in a query string is not modelled. JavaScript's enumeration order of integer-like keys does not matter, because the keys are sorted.
- What happens after an uncaught exception beyond the faulted operation is not modelled. For example, HomeKit's handling of the exception is outside the model.
