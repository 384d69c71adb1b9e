# pumpfun-monitor core, modelled in Dafny

This project models the two parts of pumpfun-monitor that decide what the program does with
the network and with the user's keyword file.

**`NATSWebSocketClient`** (src/websocket-client.ts) is a NATS client over a WebSocket. The
model covers:

- **Framing.** The `message` handler and `processBuffer` drain a text buffer of complete
  protocol frames. A `MSG` header, its payload of the declared length and the trailing
  delimiter form one frame. `PING` is answered with `PONG`. Other control lines are only
  logged.
- **Connection lifecycle.** This covers the `connect` guard, the `open`, `error` and `close`
  handlers, the CONNECT and SUB commands, the reconnect timer and `disconnect`.

**`KeywordMatcher`** (src/keyword-matcher.ts) turns the content of `keywords.txt` into a
keyword list. It then decides whether a coin's name and ticker match that list.

Modules:

- `Wrappers` holds `Option`.
- `Strings` holds the JavaScript string operations the code relies on: `trim` (with
  ECMAScript's white-space set), `startsWith`, `includes`, `split` on one character and
  `toLowerCase`.
- `JsNumber` holds `parseInt` (sign, `0x` prefix, longest digit prefix, `NaN` as `None`) and
  the decimal rendering of a number inside a template string.
- `Framing` holds the drain loop, split into one step per loop iteration.
  - `Drain` is `processBuffer`.
  - `Feed` is one `message` event.
  - `FeedAll` is a sequence of them.
  - JSON decoding is the parameter `parse`. `None` stands for a `JSON.parse` that throws.
- `FramingProperties` (the loop as a whole) and `FrameLemmas` (one frame at a time) hold the framing lemmas. The main ones are
  fragmentation invariance and the round trip with the server's `MSG` encoding.
- `Connection` is the client as a pure state machine over events. Each transition returns the
  new state, the effects and the subscription ids it handed out. Effects are what is sent,
  delivered, reported or closed.
- `ConnectionProperties` holds the invariants of that machine:
  - at most one reconnect timeout is pending;
  - ids are increasing and unique;
  - an authentication failure never retries;
  - nothing is sent on a socket that is not open.
- `Keywords` and `KeywordProperties` hold keyword parsing, the matcher and their lemmas.

Where this model and a plain reading of the client's intent differ, the model follows the code:

- `disconnect` does not stop the client for good. Closing the socket fires the same
  `close` handler. That close is not an authentication failure, so the handler schedules a
  reconnect (`ConnectionProperties.DisconnectThenCloseReconnects`).
- An authentication failure does not call `onError`. It drops the connecting flag and clears
  the timer, and no reconnect is scheduled.
- A `MSG` header whose length field is not a number still delivers a message, with an empty
  payload.
- A header with fewer than four fields is dropped silently.

## Model

| member | source | states |
|---|---|---|
| Strings.Trim | src/keyword-matcher.ts:31 | the result is the input with its leading and trailing ECMAScript white space removed; it neither starts nor ends with white space, and is empty exactly when the input is all white space |
| Strings.TrimStartsAt | src/keyword-matcher.ts:31 | after white space only, the trimmed line starts with the first visible character |
| Strings.TrimAppendSpace | src/keyword-matcher.ts:31 | appending a white-space character to a line leaves its trim unchanged |
| Strings.StartsWith | src/websocket-client.ts:133 | `startsWith`: the prefix is no longer than the text and equals its first characters (a definition, no contract) |
| Strings.Lower | src/keyword-matcher.ts:42-44 | same length; each ASCII capital becomes its small letter, every other character is kept, and no ASCII capital remains |
| Strings.TrimIdempotent | src/keyword-matcher.ts:31 | trimming a trimmed line changes nothing |
| Strings.TrimPadded | src/keyword-matcher.ts:31 | white space around a word that starts and ends with a visible character is exactly what trim removes |
| Strings.Includes | src/keyword-matcher.ts:52 | `includes` is true exactly when the pattern occurs at some index of the text |
| Strings.Split | src/websocket-client.ts:134 | `split` yields at least one piece, no piece contains the separator, and joining the pieces with the separator gives back the input |
| Strings.SplitConcat | src/keyword-matcher.ts:30 | splitting `a + sep + b` gives the pieces of `a` followed by those of `b` |
| Strings.SplitWithoutSeparator | src/keyword-matcher.ts:30 | a text without the separator splits into itself alone |
| Strings.SplitJoin | src/websocket-client.ts:134 | split undoes join when no piece contains the separator |
| JsNumber.Decimal | src/websocket-client.ts:115 | a sid rendered in a template string is a non-empty run of decimal digits, without leading zero, whose value is the sid |
| JsNumber.ParseInt | src/websocket-client.ts:138 | `parseInt` without radix: skip white space, one sign, `0x` switches to base 16, longest digit run, NaN as `None` (a definition; its NaN cases are characterised by JsNumber.ParseIntNoDigits) |
| JsNumber.ParseIntOfDecimal | src/websocket-client.ts:138 | `parseInt` reads back the decimal rendering of any n (also after a minus sign) when no further digit follows and, for n = 0, no `x` or `X` follows either (which would turn `0` into a hex prefix) |
| JsNumber.ParseIntHexPrefix | src/websocket-client.ts:138 | `parseInt("0x1A")` is 26: a length field with a hex prefix is read in base 16 |
| JsNumber.ParseIntTrailingJunk | src/websocket-client.ts:138 | `parseInt(" 13abc")` is 13: leading white space is skipped and the digit run ends the number |
| JsNumber.ParseIntNoDigits | src/websocket-client.ts:138 | for every text, `parseInt` is NaN exactly when no number starts after the leading white space and one sign: nothing left, a non-digit, or `0x` without a hexadecimal digit |
| JsNumber.ParseDigitsNone | src/websocket-client.ts:138 | a digit run is empty exactly when the text is empty or starts with a non-digit of the radix |
| Framing.FindCrlf | src/websocket-client.ts:123 | `indexOf('\r\n')`: the first delimiter position, and none exactly when the buffer holds no delimiter |
| Framing.Classify | src/websocket-client.ts:131-184 | a line is blank exactly when it is all white space; a MSG header or ping starts with its keyword, a ping never with `MSG `, and an unknown line with none of the five keywords |
| Framing.Decode | src/websocket-client.ts:148-171 | the body is the parsed value exactly when `JSON.parse` succeeds, and the raw text otherwise |
| Framing.MakeMessage | src/websocket-client.ts:148-171 | subject and sid are kept, payload and data hold the same body, which is the parsed JSON exactly when parsing succeeds and the raw payload text otherwise |
| Framing.PayloadStep | src/websocket-client.ts:140-171 | the header is put back, with the buffer kept whole, exactly when a numeric length is declared and fewer than length + 2 characters follow; otherwise exactly one well-decoded message with the header's subject and sid is delivered, and for a length n >= 0 it holds the first n characters and the buffer resumes 2 characters after them |
| Framing.HeaderStep | src/websocket-client.ts:133-172 | a MSG line is put back unchanged or consumed, and its only possible output is a delivery |
| Framing.FieldsStep | src/websocket-client.ts:134-172 | fewer than four fields consume the line with no output; otherwise the line is put back unchanged or yields one delivery whose subject and sid are the second and third fields |
| Framing.LineStep | src/websocket-client.ts:131-184 | a complete line is put back unchanged or consumed with at most one output, leaving a tail of what followed it |
| Framing.Step | src/websocket-client.ts:122-185 | one loop iteration either stops with the buffer untouched or consumes at least a delimiter and produces at most one output |
| Framing.Drain | src/websocket-client.ts:121-186 | `processBuffer` leaves a tail of the buffer, and every output used up at least one delimiter |
| Framing.Feed | src/websocket-client.ts:63-67 | one `message` event leaves a tail of the grown buffer, and every output used up at least one delimiter |
| Framing.FeedAll | src/websocket-client.ts:63-67 | a sequence of `message` events, each appending its chunk and draining (a definition; FramingProperties.FeedAllIsDrainOfConcat relates it to one drain) |
| FramingProperties.FindCrlfExtend | src/websocket-client.ts:123 | appending data does not move the first delimiter once one is present |
| FramingProperties.StepExtend | src/websocket-client.ts:122-185 | a step that consumed a frame consumes the same frame with the same outputs when more data follows |
| FramingProperties.DrainAppend | src/websocket-client.ts:121-186 | draining `b + c` is draining `b`, then draining its residue followed by `c` |
| FramingProperties.FeedAllIsDrainOfConcat | src/websocket-client.ts:63-67 | fragmentation invariance: feeding chunks one at a time delivers the same outputs and leaves the same buffer as feeding their concatenation at once |
| FramingProperties.DrainStops | src/websocket-client.ts:122-126 | the loop only ends when no further step can make progress |
| FramingProperties.DrainOfStopped | src/websocket-client.ts:121-186 | draining the residue again emits nothing and keeps it |
| FramingProperties.CharByCharFeed | src/websocket-client.ts:63-67 | data arriving one character per event yields exactly what it yields in one event |
| FrameLemmas.NoDelimiterWaits | src/websocket-client.ts:123-126 | a buffer without a delimiter produces nothing and is kept whole |
| FrameLemmas.StepOnLine | src/websocket-client.ts:123-129 | a buffer starting with a complete line is handled by that line with the delimiter removed |
| FrameLemmas.NotBlank | src/websocket-client.ts:131 | a line whose first character is not white space is not skipped as blank |
| FrameLemmas.ClassifyMsg | src/websocket-client.ts:133 | a line starting with `MSG ` is treated as a message header |
| FrameLemmas.ClassifyPing | src/websocket-client.ts:173 | a line starting with `PING` is treated as a ping |
| FrameLemmas.HeaderLine | src/websocket-client.ts:134-138 | a header with at least four fields goes to the payload step with its second and third fields and the parsed last field |
| FrameLemmas.CompleteFrameDelivered | src/websocket-client.ts:140-171 | a complete frame is delivered once with exactly the declared number of payload characters, and draining continues after its two trailing characters |
| FrameLemmas.IncompleteFrameWaits | src/websocket-client.ts:140-143 | a frame with fewer than length + 2 characters after its header is put back whole and nothing is delivered |
| FrameLemmas.UnreadableLengthDeliversEmpty | src/websocket-client.ts:138-146 | a length field that reads as NaN delivers an empty payload and consumes nothing after the header |
| FrameLemmas.PingAnswered | src/websocket-client.ts:173-175 | a PING line yields exactly one PONG and draining goes on after it |
| FrameLemmas.SilentLineDropped | src/websocket-client.ts:176-184 | blank, INFO, +OK, -ERR and unrecognised lines produce nothing |
| FrameLemmas.DeliveriesDecodedOrRaw | src/websocket-client.ts:148-171 | every delivered message carries one body in both payload and data, and raw text only when that text does not parse |
| FrameLemmas.EncodedHeaderDeclares | src/websocket-client.ts:134-138 | a header written as a NATS server writes it, with or without reply-to, is read back as the same subject, sid and length |
| FrameLemmas.EncodedMessageDelivered | src/websocket-client.ts:121-186 | round trip: a server-encoded message followed by anything is delivered with its subject, sid and exact payload, then draining continues with what follows |
| FrameLemmas.PayloadTaken | src/websocket-client.ts:140-147 | with the whole payload and two more characters present, exactly the declared characters are delivered and the two after them are skipped |
| FrameLemmas.SplitPayloadDelivered | src/websocket-client.ts:63-67 | a server-encoded message whose payload is cut anywhere across two `message` events is delivered once and whole after the second, and what follows it drains as usual |
| Connection.Connect | src/websocket-client.ts:38-44 | `connect` does nothing while connecting or open; otherwise it opens a socket and empties the buffer, and never touches ids, subscriptions or the timer |
| Connection.SendRaw | src/websocket-client.ts:188-194 | a command is sent exactly when the socket is open, and dropped otherwise |
| Connection.SendConnect | src/websocket-client.ts:101-105 | CONNECT with the serialized options is sent when the socket is open, and nothing otherwise |
| Connection.Wire | src/websocket-client.ts:102-115 | each command ends in the delimiter, starting with `CONNECT ` or `SUB `, and PONG is `PONG\r\n` as at line 175; when the options and the subject hold no `\r\n`, nothing before the final delimiter is one, so the command is a single line |
| Connection.ClearTimer | src/websocket-client.ts:203-208 | the handle is forgotten and its timeout cancelled; nothing else changes |
| Connection.ScheduleReconnect | src/websocket-client.ts:196-201 | the old timeout is cancelled and one fresh one is armed and remembered; nothing else changes |
| Connection.OnOpen | src/websocket-client.ts:49-53 | after `open` the socket is open, no longer connecting, and no timer is held |
| Connection.Subscribe | src/websocket-client.ts:107-118 | each subject takes the next id in order, the counter advances by the number of subjects, and a `SUB` line per subject goes out only when the socket is open |
| Connection.Outbound | src/websocket-client.ts:159-175 | every drained message reaches `onMessage`, in stream order, whatever the socket; on an open socket each output becomes its own effect (PING answers as PONG), and otherwise only deliveries remain, so PONGs are dropped |
| ConnectionProperties.MessageRunDelivers | src/websocket-client.ts:63-67 | a run of `message` events hands `onMessage` exactly the messages the drain loop produced over those chunks, in order, and leaves its residue in the buffer |
| ConnectionProperties.MessageRunIsOneDrain | src/websocket-client.ts:63-67 | however the stream is cut into `message` events, the messages delivered are those of one drain of the buffer followed by all the chunks |
| ConnectionProperties.MessageStep | src/websocket-client.ts:63-67 | one `message` event delivers the messages of one drain of the grown buffer and keeps its residue |
| Connection.OnMessage | src/websocket-client.ts:63-67 | a `message` event changes only the buffer and hands out no id |
| Connection.OnError | src/websocket-client.ts:74-80 | an `error` event only drops the connecting flag and calls `onError` when one was given |
| Connection.OnClose | src/websocket-client.ts:82-98 | a close stops connecting and keeps ids, subscriptions and buffer; an authentication failure leaves no timer, any other close arms a fresh one |
| Connection.IsAuthFailure | src/websocket-client.ts:86 | close code 1008, or a reason containing `401` or `Unauthorized` (a definition, no contract) |
| Connection.OnTimer | src/websocket-client.ts:198-200 | a cancelled timeout does nothing; a live one calls `connect` |
| Connection.Disconnect | src/websocket-client.ts:210-216 | `disconnect` forgets timer and socket, and closes the socket only if there was one |
| Connection.Next | src/websocket-client.ts:38-98 | each event runs its handler: `connect`, `open`, the two delayed steps, `message`, `error`, `close`, a timer expiry, `disconnect` (a definition; ConnectionProperties states its invariants) |
| Connection.Run | src/websocket-client.ts:38-98 | the events in order, effects and issued ids concatenated (a definition; ConnectionProperties.RunPreservesInv and RunIssuesIncreasing state what it keeps) |
| ConnectionProperties.InitialInv | src/websocket-client.ts:26-31 | a fresh client has no pending timeout and a sid counter of 1 |
| ConnectionProperties.AtMostOnePendingTimer | src/websocket-client.ts:196-208 | under the timer invariant at most one reconnect timeout is pending, the one the handle refers to |
| ConnectionProperties.ClearTimerSettles | src/websocket-client.ts:203-208 | after clearing no timeout is pending, and clearing twice is clearing once |
| ConnectionProperties.ScheduleLeavesOne | src/websocket-client.ts:196-201 | scheduling, once or twice in a row, leaves exactly one timeout pending |
| ConnectionProperties.CloseClassification | src/websocket-client.ts:82-98 | an authentication close leaves no timeout pending; any other close leaves exactly one |
| ConnectionProperties.AuthFailureNeverRetries | src/websocket-client.ts:86-91 | after an authentication close every timer event is ignored, so the client never reconnects |
| ConnectionProperties.DisconnectSettles | src/websocket-client.ts:210-216 | after `disconnect` no timeout is pending, and a second `disconnect` changes nothing and does nothing |
| ConnectionProperties.SubscribeKeys | src/websocket-client.ts:112-114 | after subscribing the map's keys are exactly its old keys and the subjects |
| ConnectionProperties.SubscribeLatest | src/websocket-client.ts:112-114 | a subject listed more than once keeps the id of its last occurrence |
| ConnectionProperties.SubscribeKeepsOthers | src/websocket-client.ts:112-114 | entries for subjects not subscribed again keep their ids |
| ConnectionProperties.SubscribeRecordsLatest | src/websocket-client.ts:112-114 | the subscription map gains exactly the subjects, each holding the id of its last subscription, and keeps every other entry |
| ConnectionProperties.SubscribePreservesInv | src/websocket-client.ts:107-118 | subscribing keeps every recorded id between 1 and the counter, and keeps the timer invariant |
| ConnectionProperties.NextPreservesInv | src/websocket-client.ts:38-98 | every event keeps the single-timer invariant and the id bounds |
| ConnectionProperties.RunPreservesInv | src/websocket-client.ts:38-98 | any sequence of events keeps both invariants |
| ConnectionProperties.NextIssuesFromCounter | src/websocket-client.ts:113 | an event hands out the next ids of the counter and advances it past them; no event lowers or resets it |
| ConnectionProperties.RunIssuesIncreasing | src/websocket-client.ts:113 | over any run the ids handed out are consecutive from the starting counter, which ends just past them |
| ConnectionProperties.IdsFromInitialAreUnique | src/websocket-client.ts:27 | from a fresh client the ids ever handed out are 1, 2, 3, ... and strictly increasing, across reconnects too |
| ConnectionProperties.NoSendUnlessOpen | src/websocket-client.ts:188-194 | no event sends anything while the socket is not open |
| ConnectionProperties.OutboundClosedDeliversOnly | src/websocket-client.ts:188-194 | on a socket that is not open, drained outputs only become deliveries |
| ConnectionProperties.SentCommandsAreExpected | src/websocket-client.ts:101-118 | everything sent is CONNECT with the configured options, PONG, or SUB for a configured subject with the id handed out for it |
| ConnectionProperties.SubLineReadable | src/websocket-client.ts:115 | the SUB line for a subject without spaces is `SUB`, the subject and the decimal id, separated by single spaces, and `parseInt` reads the id back |
| ConnectionProperties.DisconnectThenCloseReconnects | src/websocket-client.ts:210-216 | `disconnect` followed by its socket's close and the timeout that close arms leaves the client connecting again |
| ConnectionProperties.FirstSubscription | src/websocket-client.ts:49-61 | from a fresh client, connect, open and the two delayed steps send the CONNECT line and `SUB advancedNewCoinCreated 1` |
| Keywords.KeepKeywords | src/keyword-matcher.ts:29-32 | no more keywords than lines, and each kept one is non-empty and not a comment |
| Keywords.ParseKeywords | src/keyword-matcher.ts:29-32 | no more keywords than `\n`-separated lines, each non-empty and not a comment |
| KeywordProperties.KeepKeywordsSound | src/keyword-matcher.ts:29-32 | every kept keyword is the trim of some line of the file |
| KeywordProperties.KeepKeywordsComplete | src/keyword-matcher.ts:29-32 | every line whose trim is non-empty and not a comment contributes that trim |
| Keywords.Load | src/keyword-matcher.ts:18-38 | a missing or unreadable file leaves the list empty; otherwise the list is the content's keywords |
| Keywords.GetKeywords | src/keyword-matcher.ts:61-63 | the copy has the list's length and its elements in order |
| Keywords.Matches | src/keyword-matcher.ts:41-59 | the loop answers true exactly when the name or ticker is a standalone z or some lowered keyword occurs in the lowered `name ticker` text |
| Keywords.IsMatch | src/keyword-matcher.ts:41-59 | the reference meaning of a match: a standalone z, or some lowered keyword occurring in the lowered `name ticker` text (a definition, no contract) |
| KeywordProperties.KeepKeywordsConcat | src/keyword-matcher.ts:29-32 | filtering lines distributes over concatenation, so the file order is kept |
| KeywordProperties.KeepKeywordsSingle | src/keyword-matcher.ts:31-32 | one line contributes its trimmed text exactly when that text is a keyword |
| KeywordProperties.ParseKeywordsAppendLine | src/keyword-matcher.ts:29-32 | appending a line to the file appends at most its keyword, after all earlier ones |
| KeywordProperties.ParseKeywordsOfLines | src/keyword-matcher.ts:29-32 | a file written line by line loads as the keywords among its trimmed lines |
| KeywordProperties.EmptyIffNoKeywordLine | src/keyword-matcher.ts:32 | the list is empty exactly when every line is blank or a comment after trimming |
| KeywordProperties.LoadedKeywordsWellFormed | src/keyword-matcher.ts:29-32 | every loaded keyword is non-empty, not a comment, and already trimmed |
| KeywordProperties.GetKeywordsAfterLoad | src/keyword-matcher.ts:61-63 | `getKeywords` reports exactly what the last load parsed |
| KeywordProperties.IndentedCommentIgnored | src/keyword-matcher.ts:31-32 | a line of any white-space indentation followed by a `#` comment adds no keyword, since the `#` test runs after trimming |
| KeywordProperties.BlankLineIgnored | src/keyword-matcher.ts:31-32 | any line made only of white space adds no keyword |
| KeywordProperties.ParseKeywordsOneLine | src/keyword-matcher.ts:29-32 | a file of one line loads its trimmed text exactly when that text is a keyword |
| KeywordProperties.CarriageReturnTrimmed | src/keyword-matcher.ts:29-32 | a file whose every line ends in a carriage return (Windows line endings) loads exactly the keywords of the same file without them |
| KeywordProperties.KeepKeywordsIgnoresCarriageReturns | src/keyword-matcher.ts:31-32 | appending a carriage return to every line keeps the kept keywords the same, in the same order |
| KeywordProperties.StandaloneZMatches | src/keyword-matcher.ts:46-49 | a name or ticker that is z in either case matches whatever the keywords |
| KeywordProperties.NoKeywordsOnlyZ | src/keyword-matcher.ts:46-58 | with no keywords only a standalone z matches |
| KeywordProperties.MatchMonotone | src/keyword-matcher.ts:51-56 | adding keywords never loses a match |
| KeywordProperties.MatchOrderIndependent | src/keyword-matcher.ts:51-56 | any permutation of the keyword list gives the same verdict |
| KeywordProperties.MatchIgnoresCase | src/keyword-matcher.ts:42-44 | the verdict does not depend on the letter case of name and ticker |
| KeywordProperties.MatchIgnoresKeywordCase | src/keyword-matcher.ts:52 | the verdict does not depend on the letter case of the keywords |
| KeywordProperties.KeywordSpansNameAndTicker | src/keyword-matcher.ts:42 | name and ticker are searched as one text, so `pepe coin` hits name `Pepe` with ticker `COIN` |

## Left out

- The WebSocket transport (`ws`), the URL and the socket's own behaviour are left out. Socket events are inputs, and the sending and closing of the socket are recorded as effects.
- The 100 ms delays before CONNECT and SUB, and the 5000 ms reconnect delay, are left out. The delayed steps and timer expiries are events, so only their order is modelled.
- All console logging is left out, because it has no effect on state.
- `JSON.parse` is the parameter `parse`, and `JSON.stringify` of the connect options is the parameter `options`. JSON itself is not modelled.
- The socket's CLOSING state is left out: `SocketState` has no state between open and closed. `ws` enters CLOSING before it emits `error` and when a close starts, so in the model an open socket that reported an error still sends through `sendRaw`, and `connect` still sees it as open, until the `close` event arrives.
- Events from a socket that `connect` has already replaced are not modelled, because their timing depends on the library. Events from the socket `disconnect` closed are modelled.
- Numbers above 2^53 are left out: `parseInt` is modelled with unbounded integers, with no floating-point rounding.
- Byte counts are not modelled. String length is JavaScript's UTF-16 length, while NATS counts payload bytes. Each `char` stands for one string unit, so payloads with non-ASCII text are not modelled. Neither are multi-byte characters split across `message` events, which `data.toString()` would decode separately.
- Exceptions thrown by the consumer callback are left out. The `onMessage` call at line 159 sits inside the `try` whose `catch` (lines 160-171) calls `onMessage` a second time with the raw payload, so a throwing consumer gets the same frame twice, the second time as raw text although `JSON.parse` succeeded. An exception from that second call reaches the outer `try`/`catch` of the `message` handler and leaves the buffer half-drained. The model's callback never throws, which is what Framing.MakeMessage and FrameLemmas.DeliveriesDecodedOrRaw rely on.
- Keyword file I/O is reduced to `Keywords.Load`, with `None` for a missing or unreadable file. Creating the empty file and the `watchFile` reload are left out.
- Strings.Lower: `toLowerCase` is modelled for the ASCII letters only. Other letters are kept as they are.
- Connection.Wire: the single-line property is stated on the condition that the options and the subject hold no `\r\n`. With `JSON.stringify` not modelled, the options are an arbitrary string, while the real serializer escapes every CR and LF and the subject is a constant.
- FramingProperties.FeedAllIsDrainOfConcat: stated for at least one chunk. With no chunk at all no `message` event happens, so there is no drain to compare with.
- src/index.ts and src/discord-webhook.ts (wiring, coin formatting, webhook posting) are not part of this model.
