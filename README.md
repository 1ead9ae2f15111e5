# QAmqpExchange, modelled in Dafny

A model of the client side of one AMQP 0-9-1 exchange bound to one channel, as
`src/qamqpexchange.cpp` of qamqp implements it:

- the exchange lifecycle (CLOSED, UNDECLARED, DECLARING, DECLARED, REMOVING)
  with its delayed-declare flag, driven by the public calls, the
  declare-ok / delete-ok replies and the channel's open, close and
  disconnect notifications;
- the publish pipeline: one basic.publish method frame, one content header
  whose properties are the defaults overlaid by the caller's, then the body
  in slices of `frameMax - 7` bytes;
- publisher-confirm bookkeeping: the delivery-tag counter seeded by
  `enableConfirms` and advanced by `publish`, and the list of unconfirmed tags
  trimmed by basic.ack (cumulative or single) and left alone by basic.nack;
- basic.return, which records the reply code and text as the exchange's error.

Files:

- `wire.dfy` (module `Wire`): typed field values, content-property keys,
  frames, inbound methods, emitted signals, AMQP class and method numbers,
  the 8-bit cast of option words, and `TypeToString`.
- `chunking.dfy` (module `Chunking`): the body slices and their round trip.
- `confirms.dfy` (module `Confirms`): the tag list as values, its invariant
  (strictly increasing, positive, below the counter) and the ack/publish
  updates with their lemmas.
- `exchange.dfy` (module `ExchangeClient`): the class `Exchange` with the
  source's fields and one method per operation (the `isDeclared` query is
  the predicate `IsDeclared`); frames handed to the transport go to the log
  `sent`, signals to the log `events`.
- `scenarios.dfy` (module `Scenarios`): client code driving an exchange
  through whole conversations using only the class's contracts.

Where the code and the protocol description around it differ, the model
follows the code:

- The private declare sets `delayedDeclare` in every state other than
  UNDECLARED and DECLARING, not in DECLARING.
- The public `declare` moves to DECLARING before calling the private one, so it
  never sends exchange.declare; `Scenarios.NamedDeclareConversation` shows that
  a named exchange declared before and after its channel opens puts nothing on
  the wire.
- `channelClosed` only moves to CLOSED; it is `_q_disconnected` that also
  drops a delayed declare.
- `remove` sends exchange.delete without leaving DECLARED; REMOVING is never
  entered.
- An ack with tag 0 signals `allMessagesDelivered` even when the list was
  already empty.
- Body slices reserve 7 bytes of the frame maximum, as written, although
  section 4.2.3 of the AMQP 0-9-1 specification surrounds each frame payload
  with a 7-byte header and a 1-byte frame-end.

## Model

| member | source | states |
|---|---|---|
| `Wire.Int8` | src/qamqpexchange.cpp:62 | the `qint8` cast of an option word lies in -128..127, is congruent to the word modulo 256, and keeps a word already in range |
| `Wire.TypeToString` | src/qamqpexchange.cpp:12-22 | each named exchange type maps to its own wire name ("direct", "fanout", "topic", "headers"); an undefined enum value falls back to "direct" |
| `Chunking.MidSplit` | src/qamqpexchange.cpp:398-401 | two consecutive `mid` calls, `a` bytes from `pos` and `b` bytes from `pos + a`, give together exactly the `a + b` bytes from `pos`; `mid` is additive over adjacent ranges |
| `Chunking.ChunksConcat` | src/qamqpexchange.cpp:398-405 | the body slices concatenate to exactly the message |
| `Chunking.ChunkSizes` | src/qamqpexchange.cpp:398-405 | no slice is empty or longer than the slice size, and every slice but the last is exactly the slice size |
| `Chunking.ChunkCount` | src/qamqpexchange.cpp:398-405 | the number of slices is ceil(size / slice size) (stated without division) and an empty message has none |
| `Confirms.IndexOf` | src/qamqpexchange.cpp:179 | `indexOf` gives -1 exactly when the tag is absent, otherwise the first index holding it |
| `Confirms.EnableTwiceIsEnableOnce` | src/qamqpexchange.cpp:429 | after enabling confirms tagging is on (counter positive); enabling again changes nothing, and a counter already running is never reset |
| `Confirms.AfterAck` | src/qamqpexchange.cpp:175-189 | an ack with tag 0 empties the list; an unknown non-zero tag leaves it unchanged; a known tag shortens it |
| `Confirms.PublishKeepsTagsValid` | src/qamqpexchange.cpp:365-368 | a publish keeps the list strictly increasing with every tag below the counter, and the appended tag is the old counter |
| `Confirms.EnableKeepsTagsValid` | src/qamqpexchange.cpp:429 | seeding the counter keeps the tag invariant |
| `Confirms.PublishesAssignConsecutiveTags` | src/qamqpexchange.cpp:365-368 | with tagging on, n publishes append next, next+1, ..., next+n-1 to the list and leave the counter at next+n: no gaps, no repeats |
| `Confirms.PublishesWithoutTagging` | src/qamqpexchange.cpp:365-368 | with the counter at 0, any number of publishes changes neither the list nor the counter |
| `Confirms.MultipleAckKeepsGreater` | src/qamqpexchange.cpp:184-185 | on a sorted list, a multiple ack of a present tag T keeps a suffix of the list holding exactly the tags greater than T |
| `Confirms.SingleAckRemovesOne` | src/qamqpexchange.cpp:186-187 | a single ack of a present tag T removes exactly that one occurrence: the multiset loses T once, T is gone, every other tag stays |
| `Confirms.AckKeepsTagsValid` | src/qamqpexchange.cpp:175-189 | every ack keeps the list strictly increasing, positive and below the counter |
| `Confirms.AckDrainsExactly` | src/qamqpexchange.cpp:175-192 | an ack with a non-zero tag leaves the list empty (and so signals `allMessagesDelivered`) exactly when the list was non-empty and the ack is multiple and names the newest tag, or single and the list held only that tag |
| `ExchangeClient.Overlay` | src/qamqpexchange.cpp:391-394 | the header properties hold every default and every caller key; the caller's value wins on a collision and defaults survive elsewhere |
| `ExchangeClient.OverlayProperties` | src/qamqpexchange.cpp:384-394 | the `setProperty` loop over the caller's hash yields exactly the overlay of the caller's properties on the defaults, whatever order it visits keys in |
| `ExchangeClient.PublishFramesLayout` | src/qamqpexchange.cpp:370-405 | a publish sends one basic.publish frame, then one header with body size equal to the message size and properties ContentType = mime type, ContentEncoding = "utf-8", Headers = headers, MessageId = "0" unless the caller overrides them, then the body frames, which concatenate to the message, are full but for the last, number ceil(size / (frameMax - 7)) and are absent for an empty message |
| `ExchangeClient.Exchange.constructor` | src/qamqpexchange.cpp:24-30 | a new exchange is CLOSED, with no delayed declare, tagging off, no tags outstanding, nothing sent |
| `ExchangeClient.Exchange.NewState` | src/qamqpexchange.cpp:200-207 | the lifecycle state becomes the given one and nothing else changes |
| `ExchangeClient.Exchange.TryDeclare` | src/qamqpexchange.cpp:32-68 | from UNDECLARED with a name: DECLARING, exactly one exchange.declare frame (name, type, options, arguments) and the delayed flag cleared; with an empty name: no change; from DECLARING: no change; from any other state: only the delayed flag set |
| `ExchangeClient.Exchange.Dispatch` | src/qamqpexchange.cpp:70-111 | every basic and exchange method and confirm.select-ok is handled, nothing else; each routes to its handler with that handler's effect; basic.return never touches the tag list, and with reply code NoError leaves the recorded error and the signals unchanged; a nack changes nothing |
| `ExchangeClient.Exchange.HandleDeclareOk` | src/qamqpexchange.cpp:113-121 | declare-ok moves to DECLARED and emits `declared` |
| `ExchangeClient.Exchange.HandleDeleteOk` | src/qamqpexchange.cpp:123-131 | delete-ok moves to UNDECLARED and emits `removed` |
| `ExchangeClient.Exchange.Disconnected` | src/qamqpexchange.cpp:133-139 | losing the connection forces CLOSED and clears the delayed declare |
| `ExchangeClient.Exchange.HandleReturn` | src/qamqpexchange.cpp:141-164 | a reply code other than NoError becomes the recorded error with its text and is emitted as an error signal; NoError changes nothing; the tag list is outside its frame |
| `ExchangeClient.Exchange.HandleAckOrNack` | src/qamqpexchange.cpp:166-197 | an ack updates the list as `AfterAck` and signals `allMessagesDelivered` exactly when the tag was 0 or outstanding and the list is now empty; a nack leaves list and signals unchanged; the tag invariant is kept |
| `ExchangeClient.Exchange.NewChannelState` | src/qamqpexchange.cpp:209-214 | a closed channel forces the exchange CLOSED; any other channel state leaves it alone |
| `ExchangeClient.Exchange.ChannelOpened` | src/qamqpexchange.cpp:253-273 | the default exchange becomes DECLARED and emits `declared` with no frame; a named one becomes UNDECLARED and sends one exchange.declare exactly when a declare was delayed, clearing the flag |
| `ExchangeClient.Exchange.ChannelClosed` | src/qamqpexchange.cpp:275-280 | closing the channel moves the exchange to CLOSED |
| `ExchangeClient.Exchange.IsDeclared` | src/qamqpexchange.cpp:294-298 | the exchange counts as declared exactly in DECLARED; it is the guard on which `Publish`, `PublishText`, `PublishBytes`, `EnableConfirms` and `Remove` state their two outcomes |
| `ExchangeClient.Exchange.Declare` | src/qamqpexchange.cpp:305-313 | the public declare records type, options and arguments and always ends in DECLARING with no frame sent and the delayed flag unchanged |
| `ExchangeClient.Exchange.DeclareType` | src/qamqpexchange.cpp:300-303 | declaring by enumerated type records the type's wire name, with the same effect as `Declare` |
| `ExchangeClient.Exchange.Remove` | src/qamqpexchange.cpp:315-338 | when DECLARED, exactly one exchange.delete frame (name, options) and the state unchanged; otherwise no frame and only the delayed flag changes, to false |
| `ExchangeClient.Exchange.Publish` | src/qamqpexchange.cpp:354-406 | not DECLARED: no field changes; DECLARED: the tag list and counter advance as `PublishTags`/`PublishNext` (current tag appended and counter +1 when tagging is on, nothing otherwise) and exactly the frames of `PublishFrames` are sent; the tag invariant is kept |
| `ExchangeClient.Exchange.TagPublish` | src/qamqpexchange.cpp:365-368 | with confirms on, the current tag is appended to the outstanding list and the counter moves on (as `PublishTags`/`PublishNext`); with confirms off nothing changes; the tag invariant is kept |
| `ExchangeClient.Exchange.SendBody` | src/qamqpexchange.cpp:398-405 | the body loop sends one body frame per slice of `Chunks`, in order |
| `ExchangeClient.Exchange.PublishText` | src/qamqpexchange.cpp:340-345 | publishing text is publishing its bytes as "text.plain" with no headers |
| `ExchangeClient.Exchange.PublishBytes` | src/qamqpexchange.cpp:347-352 | publishing bytes with a MIME type is publishing them with no headers |
| `ExchangeClient.Exchange.EnableConfirms` | src/qamqpexchange.cpp:408-430 | when DECLARED, one confirm.select frame carrying 1 for no-wait and 0 otherwise, and the counter seeded as `EnableNext` (1 when it was 0, unchanged otherwise); otherwise nothing changes |
| `Scenarios.DeclaredLogs` | src/qamqpexchange.cpp:113-121 | declare followed by declare-ok leaves a named exchange DECLARED with one `declared` signal and no frame sent |
| `Scenarios.AckOneThenAll` | src/qamqpexchange.cpp:175-192 | from tags [1, 2], a single ack of 1 leaves [2] silently and a multiple ack of 2 drains the list with one `allMessagesDelivered` |
| `Scenarios.ConfirmConversation` | src/qamqpexchange.cpp:354-430 | declare, publish untagged, enable confirms, publish twice, ack 1, ack 2 cumulatively: nothing outstanding, signals `declared`, `confirmsEnabled`, `allMessagesDelivered` |
| `Scenarios.NamedDeclareConversation` | src/qamqpexchange.cpp:305-313 | public declare, channel open, public declare again: no frame is ever sent, the exchange is DECLARING and no declare is delayed |
| `Scenarios.DefaultExchangeConversation` | src/qamqpexchange.cpp:258-263 | opening the default exchange's channel declares it, and an empty publish then sends the method and header frames only |
| `Scenarios.EmptyBodyAnyFrameMax` | src/qamqpexchange.cpp:397-405 | an empty message skips the body loop, so it can be published whatever the frame maximum, and only the method and header frames go out |
| `Scenarios.TwoFullSlicesAndOneByte` | src/qamqpexchange.cpp:398-405 | a body of 2 * size + 1 bytes is sent as two full slices and one single byte, in order |

## Left out

- `waitForConfirms` (src/qamqpexchange.cpp:432-442): a nested event loop with a timer, which is time and concurrency rather than logic.
- Byte-level encoding and decoding of method arguments and content headers: done by a codec that is not part of this model. Frames carry typed field lists, and inbound methods arrive with their arguments decoded (`Wire.Inbound`).
- The base channel class: its `_q_method` dispatch (taken to return false), `init`, its `newState` and its `_q_disconnected` are not part of this model; the channel states other than closed are not told apart.
- Debug logging and the `QDebug` printing of states (src/qamqpexchange.cpp:216-238).
- Qt signal delivery: signals are appended to the `events` log.
- Text encoding: `PublishText` takes the message already UTF-8 encoded; strings are character sequences and bodies byte sequences.
- `ExchangeClient.Exchange.Publish` (and `PublishText`, `PublishBytes`): requires `frameMax > 7` only for a non-empty message published in DECLARED. The negotiated frame maximum comes from the connection; with 7 or less the source's body loop never advances (or moves backwards) and does not end for such a call. An empty message, or any call outside DECLARED, returns without entering the loop and is modelled for every `frameMax`.
- `ExchangeClient.Exchange.Publish`: the delivery-tag counter, the byte offset of the body loop and the body size are unbounded integers; 64-bit and 32-bit overflow of these is not modelled.
- The exchange name is a constant given at construction; setting it belongs to the channel class.
