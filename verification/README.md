# A verified model of the OPC UA PubSub and client code

The repository is a set of Node-RED nodes for OPC UA. This project models the parts of it that are
algorithms and protocols, and proves what they promise.

**The UADP pipeline.** A publisher turns field values into NetworkMessages with sequence numbers, an encoder
writes them as bytes, large ones in chunks that fit the MTU; a subscriber decodes, puts chunks back together,
filters and emits. `UadpModel` is the message model with its normal form (what is left of a message after one
trip: type numbers for names, 0 for absent group numbers, upper-case GUIDs, an empty DataValue for null, writer
ids only in the payload header). `UadpSpec` states the layout the code writes as functions on byte sequences;
`BinaryStream`, `UadpEncoder` and `UadpDecoder` are the cursor-based code, proved to compute those functions.
`UadpRoundTrip`, `UadpReencode`, `UadpTotality` and `UadpChunks` prove what the format promises. What the bytes are,
apart from reading back, is stated by `UadpLayout` (flag bytes bit by bit, in both directions, and dimension lists), `UadpReading` (bytes the encoder never writes),
`UadpAccepts` (exactly which messages the encoder accepts) and, by example, `UadpVectors` and `UadpTypes`.
`Reassembler` is the keyed, bounded, expiring buffer of half-received messages; `Reassembly` proves its
invariants and soundness, `ReassemblyWarnings` that what is lost is reported, `PublisherTexts` what keys and filters
compare, `ChunkTransport` that chunking and reassembly are inverse. `Publisher`, `Subscriber`
and `PubSub` are the two ends and what gets from one to the other. The layout follows the code, which cites
OPC 10000-14 (section 7.2.4) and OPC 10000-6 (sections 5.2.2.16 and 5.2.2.17).

**Connection lifecycles.** `ClientManager` is the client manager as a machine whose steps are the stretches of
code between two awaits: connect attempts, disconnects, the retry loop, the background timer, session repair.
The environment decides who resumes and whether what was awaited succeeded. `ClientManager` proves that nothing is
leaked and ended lifecycles are inert, `ClientProgress` that resolved attempts connect, rejected ones fail once and are
tried again, and disconnects return. `PubSubConnection` is the shared
transport with reference count, grace timer and status fan-out.

**Small algorithms.** `Pool` (round robin under changing connectivity), `Browser`, `BrowserItems` and `BrowserTree` (a
depth-bounded graph walk with one visited set, and the tree it answers with) and `NodeIds` (the NodeId parser and printer). `Wire`, `Guid`, `Numerals`, `JsMap`,
`Collections` and `Wrappers` are the ground they stand on: bytes, hexadecimal text, decimal text, insertion-ordered
maps, options and results.

An exception of the source is an `Err` or a `Fail`. Times are parameters. `dafny verify dfyconfig.toml` checks
the whole project.

## Results that are not what one would expect

- The decoder gives back the encoder's message only when the number of ids and of messages agree and nothing is
  RawData: `UadpRoundTrip.NetworkMessageRoundTrip` is an if-and-only-if.
- An empty array whose type number is a multiple of 64 encodes but does not encode again after decoding:
  `UadpReencode.EmptyArrayOfType64`, with the exact condition in `UadpReencode.NetworkMessageAgain`.
- A comment in the encoder says the probe length includes a 12-byte chunk struct; the struct has 14 bytes, and 12
  more are subtracted, so chunks stay 12 bytes below the MTU: `UadpChunks.ChunkedEncoding`.
- Messages of one NetworkMessage share its number only if the writer ids are distinct:
  `Publisher.SameNumberIffDistinct`.
- A release without an acquire is harmless exactly when there is no transport and no consumer is still counted:
  `PubSubConnection.SurplusReleaseIsHarmlessIff`. Otherwise, while the node is open, the transport is closed
  under the last consumer (`SurplusReleaseClosesUnderHolder`) or a timer is left that nobody can cancel
  (`SurplusReleaseLeavesATimer`).
- A transport acquired while the node closes is forgotten: `PubSubConnection.AcquiredWhileClosingIsForgotten`.
- A browse at or below the number of nodes that can be reached can miss a node one reference away, and that bound is exact:
  `Browser.NearBrowsedExactly`, `Browser.AllBrowsedExactly`. On trees depth is distance: `BrowserTree.DepthIsDistance`.
- Names every JavaScript object inherits, such as "constructor", do not parse as NodeIds: `NodeIds.PlainTextIsKept`.
- A numeric identifier of 310 digits parses as an infinity, which is printed as a word and read back as NaN:
  `NodeIds.ParsePrintParse`.
- Followed by other bytes, a message without DataSetMessages is not read the same: `UadpRoundTrip.NetworkMessageIgnoresSuffix`.
- With a BigInt among its values a cyclic publisher sends nothing: `Publisher.PublisherNode.OnTick`.

## Model

| member | source | states |
|---|---|---|
| `UadpRoundTrip.NetworkMessageRoundTrip` | lib/uadp-encoder.js:989-1226 | decoding an encoded message gives its normal form if and only if no DataSetMessage is RawData and the numbers of ids and messages agree; holds for every message the encoder accepts |
| `UadpRoundTrip.NetworkMessageIgnoresSuffix` | lib/uadp-encoder.js:1123-1226 | followed by other bytes, a message reads the same and leaves them if and only if it reads back at all and it has a DataSetMessage or nothing follows |
| `UadpRoundTrip.BodyIgnoresSuffix` | lib/uadp-encoder.js:1200-1223 | a payload that is not empty is read from its own bytes, whatever follows |
| `UadpReencode.NetworkMessageAgain` | lib/uadp-encoder.js:989-1050 | re-encoding the decoded message gives the same bytes, exactly when no Variant reaches the wire as type 0; otherwise the encoder rejects it |
| `UadpReencode.DecodedAgain` | lib/uadp-encoder.js:989-1226 | so the message decode() returned is encoded as the bytes it was decoded from, exactly under that condition |
| `UadpReencode.EmptyArrayOfType64` | lib/uadp-encoder.js:441-453 | the exception exists: an empty array of type number 64 encodes, decodes as type 0, and does not encode again |
| `UadpChunks.ChunkedEncoding` | lib/uadp-encoder.js:1054-1100 | whatever comes out in chunks: non-empty consecutive slices from 0 whose data joins to the whole encoding, every buffer at most MTU - 12 bytes |
| `UadpChunks.SingleIffItFits` | lib/uadp-encoder.js:1050-1104 | a message that encodes comes out as one buffer if and only if it fits the MTU or has no payload |
| `UadpChunks.SingleRoundTrip` | lib/uadp-encoder.js:1050-1226 | that buffer, as the encoder returned it, decodes to the normal form exactly when no message is RawData and the counts agree |
| `UadpChunks.OnlyEncodableIsSent` | lib/uadp-encoder.js:989-1104 | a message that does not encode fails with that error, and only a message to be cut up can fail otherwise |
| `UadpChunks.ChunksAreFull` | lib/uadp-encoder.js:732-753 | the i-th chunk starts at i times the data size, and all but the last carry exactly that many bytes |
| `UadpChunks.ChunksNameTheirMessage` | lib/uadp-encoder.js:1061-1099 | every chunk decodes to the total size, the 16-bit sequence number, the first writer id and no payload |
| `UadpAccepts.MessageAccepted` | lib/uadp-encoder.js:989-1050 | the encoder accepts a message if and only if everything in it is in range for its width, nothing is promoted, and messages with a size array stay below 64 KiB |
| `UadpAccepts.HeaderAccepted` | lib/uadp-encoder.js:573-719 | the header part of it: publisher id, group numbers, at most 255 ids of 16 bits, times |
| `UadpAccepts.DataSetAccepted` | lib/uadp-encoder.js:828-902 | the DataSetMessage part: header numbers, and fewer than 65536 fields that fit, except in a KeepAlive |
| `UadpAccepts.VariantAccepted` | lib/uadp-encoder.js:441-460 | a Variant is accepted if and only if its type exists and can hold the value, or every element of an array shorter than 2^31 |
| `UadpAccepts.DataValueAccepted` | lib/uadp-encoder.js:509-528 | a DataValue: its parts, the status code being any integer |
| `UadpAccepts.FieldAccepted` | lib/uadp-encoder.js:872-899 | a field: of the kind its encoding is named after; RawData takes scalars only |
| `UadpAccepts.ScalarAccepted` | lib/uadp-encoder.js:290-358 | a scalar is written if and only if its type can hold it, by explicit ranges for all sixteen types |
| `UadpAccepts.ScalarRefused` | lib/uadp-encoder.js:290-358 | and which error it is otherwise: unknown type, other kind, or out of range |
| `UadpLayout.DataSetFlagLayout` | lib/uadp-encoder.js:843-855 | the flag bytes of a DataSetMessage bit by bit: a keyframe without timestamp has one, anything else two; the low nibble of the second is the message type |
| `UadpLayout.DataSetFlagsReadAs` | lib/uadp-encoder.js:923-939 | conversely, for any bytes: which header parts, encoding and message type the flag bytes stand for |
| `UadpLayout.HeaderFlagLayout` | lib/uadp-encoder.js:1000-1017 | the one to three flag bytes of a NetworkMessage bit by bit, and when each is there |
| `UadpLayout.FlagsNeedAnId` | lib/uadp-encoder.js:552-571 | which publisher ids have type bits, and the error of every other one |
| `UadpLayout.HeaderReadsAs` | lib/uadp-encoder.js:1128-1198 | conversely, for any bytes that decode: which header parts are there and of what kind the publisher id is |
| `UadpLayout.VersionIsChecked` | lib/uadp-encoder.js:1130-1187 | no bytes, another version, or promoted fields: never a message |
| `UadpLayout.Refusals` | lib/uadp-encoder.js:364-428 | unknown type numbers, unknown publisher id types and RawData are refused when reading |
| `UadpLayout.DimensionsReadBack` | lib/uadp-encoder.js:483-491 | a count and that many Int32 read back as that dimension list, in order |
| `UadpReading.FieldsAreAssigned` | lib/uadp-encoder.js:949-962 | fields with any names are read one after the other into the object |
| `UadpReading.LastFieldCounts` | lib/uadp-encoder.js:949-962 | so of several fields with one name the last counts |
| `UadpReading.MessagesHaveTheirSlices` | lib/uadp-encoder.js:1207-1212 | with a size array each message is read from its own slice, and the slices are consecutive |
| `UadpReading.NullTexts` | lib/uadp-encoder.js:238-242 | the length 0xffffffff is a null text, and a null publisher id |
| `UadpReading.NegativeLengths` | lib/uadp-encoder.js:471-491 | a negative length is an empty array, a negative count no dimensions |
| `UadpReading.AnyByteIsTrue` | lib/uadp-encoder.js:364-367 | any byte but 0 is true |
| `UadpLayout.VariantWithDimensions` | lib/uadp-encoder.js:464-494 | an encoded Variant with the dimension bit and a dimension list behind it reads as that Variant with them |
| `UadpChunks.ChunkingFailsOnlyOnSizes` | lib/uadp-encoder.js:732-740 | a message that encodes and is too large for the MTU is cut up if and only if it is shorter than 2^32 bytes and the MTU exceeds the overhead of a chunk by more than 12; which error it is otherwise |
| `UadpChunks.ProbeEncodes` | lib/uadp-encoder.js:1078-1089 | for a message that encodes, the empty probe chunk does if and only if the total is below 2^32, and it measures header and struct |
| `UadpChunks.ChunkHeaderIsConstant` | lib/uadp-encoder.js:1078-1099 | the header the probe measures is the header of every chunk |
| `UadpChunks.ChunkRoundTrip` | lib/uadp-encoder.js:765-810 | a chunk buffer decodes to the normal header of the message with this chunk, one writer id and no payload |
| `ChunkTransport.ChunkTransportIsLossless` | lib/uadp-reassembler.js:57-154 | chunks of a message in any order, repeated, mixed with other keys: nothing is delivered until the last missing one, then exactly the unchunked encoding, which decodes to the message |
| `ChunkTransport.LastChunkDelivers` | lib/uadp-reassembler.js:57-154 | the same for any tiling of any payload, from any state in which the key is free |
| `ChunkTransport.NothingIsDropped` | lib/uadp-reassembler.js:78-92 | at most 1000 keys, all within 30 seconds, are enough for no entry to expire or be evicted |
| `ChunkTransport.ChunkedIsTransmission` | lib/uadp-encoder.js:1061-1099 | the encoder's chunks all arrive under one key, in the slices of the whole encoding |
| `ChunkTransport.PendingWhileIncomplete` | lib/uadp-reassembler.js:111-127 | before the last chunk the entry holds exactly the distinct chunks seen so far |
| `ChunkTransport.AllHeldSorted` | lib/uadp-reassembler.js:129-153 | with all chunks held, in whatever order they came, sorting and joining gives the payload |
| `Reassembly.DeliveredBufferIsSound` | lib/uadp-reassembler.js:111-153 | for arbitrary chunk streams, a delivered buffer has the length declared by the chunk that opened its entry, the last one to find no live entry of its key, and each byte comes from the latest accepted chunk at exactly one offset |
| `Reassembly.DeliveredIffTiled` | lib/uadp-reassembler.js:124-151 | a push delivers if and only if the recorded parts, sorted, tile the declared size exactly |
| `Reassembly.AlwaysBounded` | lib/uadp-reassembler.js:65-127 | over all push sequences: at most 1000 entries, each holding fewer bytes than its total size, itself at most the cap |
| `Reassembly.AlwaysLittleMemory` | lib/uadp-reassembler.js:65-127 | so the bytes buffered stay below 1000 times the cap |
| `Reassembly.AlwaysInOrder` | lib/uadp-reassembler.js:78-121 | under a clock that never goes back, insertion order is expiry order, and after any push past the size check nothing expired is left |
| `Reassembly.OverflowDropsEarliest` | lib/uadp-reassembler.js:84-92 | so overflow evicts an entry that would expire first |
| `Reassembly.KeysSeparate` | lib/uadp-reassembler.js:58-61 | two chunks share a key if and only if writer group and sequence number agree and the publisher ids are the same number, the same string, or a string that spells the other one, even with "&#124;" in it |
| `PublisherTexts.SameTextIff` | lib/uadp-reassembler.js:58-61 | two publisher ids have the same text if and only if they are the same number, the same string, a string that spells the other one, or the same kind of nothing |
| `PublisherTexts.PublisherTextNames` | nodes/opcua-subscriber.js:159-165 | the text of a publisher id: a string itself, a number in decimal, the words for absent and null |
| `PublisherTexts.DecimalText` | lib/uadp-reassembler.js:58-61 | a printed integer is the digits of its decimal value without leading zero, with a minus sign if negative, and nothing else is |
| `PublisherTexts.FiveIsSpelled` | nodes/opcua-subscriber.js:159-165 | example: 5 is "5" |
| `PublisherTexts.KeyIsSpelled` | lib/uadp-reassembler.js:58-61 | the key is publisher, group and number in text, between bars |
| `ReassemblyWarnings.ExactlyTheLossesAreReported` | lib/uadp-reassembler.js:65-153 | a push warns of a refused size, of an evicted entry, and of a chunk or message that cannot be put together, exactly when that happens |
| `Reassembly.PushIsLocal` | lib/uadp-reassembler.js:78-122 | a push for one key leaves every other entry as it is or removes it whole |
| `Reassembly.PartsAreLatest` | lib/uadp-reassembler.js:111-122 | under each offset the parts hold the data of the latest accepted chunk |
| `Reassembly.EveryEntryWasOpened` | lib/uadp-reassembler.js:113-122 | every entry was opened by an accepted chunk of its key, the last one to find no live entry, and has recorded all accepted ones since |
| `Reassembly.OneOpening` | lib/uadp-reassembler.js:111-122 | only one chunk of a key is the last to find no live entry |
| `Reassembly.TilesCover` | lib/uadp-reassembler.js:133-153 | tiling parts: every position lies in exactly one part, and joining puts each byte in its place |
| `Reassembly.SortedPermutes` | lib/uadp-reassembler.js:133-133 | sorting keeps exactly the parts |
| `Reassembly.StepFound` | lib/uadp-reassembler.js:78-153 | what an accepted chunk leaves under its key, and what it delivers |
| `Reassembly.StepRejected` | lib/uadp-reassembler.js:63-109 | a rejected chunk delivers nothing and changes no parts |
| `UadpTotality.NetworkMessageBounded` | lib/uadp-encoder.js:1123-1226 | on any bytes decoding ends with an error or a message; the cursor never passes the end, and ids, messages and chunk data are bounded by the bytes |
| `UadpTotality.ScalarsBounded` | lib/uadp-encoder.js:471-477 | a declared array length gives that many elements, each from at least one byte of its own |
| `UadpTotality.ScalarsStop` | lib/uadp-encoder.js:471-477 | a declared length above the bytes left fails, after at most one step per byte and one more |
| `UadpTotality.IntsBounded` | lib/uadp-encoder.js:481-490 | declared dimensions take four bytes each |
| `UadpTotality.IntsStop` | lib/uadp-encoder.js:481-490 | a declared dimension count above the bytes left fails early |
| `UadpTotality.NamedFieldsBounded` | lib/uadp-encoder.js:949-961 | a declared field count takes at least three bytes a field |
| `UadpTotality.NamedFieldsStop` | lib/uadp-encoder.js:949-961 | a declared field count above the bytes left fails early |
| `UadpTotality.UInt16sBounded` | lib/uadp-encoder.js:1170-1174 | a declared number of ids or sizes takes two bytes each |
| `UadpTotality.UInt16sStop` | lib/uadp-encoder.js:1170-1174 | a declared number above half the bytes left fails, after at most that many steps and one more |
| `UadpTotality.SizedStop` | lib/uadp-encoder.js:1207-1212 | more sizes than bytes left fail, after at most one step per byte and one more |
| `UadpTotality.SizedBounded` | lib/uadp-encoder.js:1205-1212 | the slices of the size array: as many messages as sizes, each from a byte of its own |
| `UadpTotality.DataSetMessageConsumes` | lib/uadp-encoder.js:920-965 | a DataSetMessage consumes at least one byte or fails |
| `UadpTotality.VariantConsumes` | lib/uadp-encoder.js:464-494 | so does a Variant |
| `PubSub.MessagesApart` | lib/uadp-reassembler.js:58-61 | the chunks of two messages of one publisher have the same key if and only if their numbers agree in 16 bits |
| `PubSub.WholeMessageIsReceived` | nodes/opcua-subscriber.js:141-257 | what a subscriber emits for the k-th message a publisher builds: one message per matching writer in writer order, with exactly the declared fields present, numbered k modulo 65536; version mismatches raise errors instead |
| `PubSub.ChunkedMessageIsReceived` | nodes/opcua-subscriber.js:240-257 | the same in chunks among arbitrary other buffers: every chunk but the completing one emits nothing, that one emits what the whole message would |
| `PubSub.CarriedExactly` | nodes/opcua-publisher.js:218-226 | the payload has a field if and only if it is declared and has a value, and its value is the normal form under the last declared type |
| `PubSub.CarriedFields` | nodes/opcua-subscriber.js:125-137 | building, encoding, decoding and unwrapping the fields gives that payload |
| `PubSub.EmittedAreExpected` | nodes/opcua-subscriber.js:150-225 | filter, version check and emission, message by message, against the publisher's configuration |
| `Publisher.KthMessageNumber` | nodes/opcua-publisher.js:210-249 | with distinct writer ids the k-th message built carries k modulo 65536 in its group header and in every DataSetMessage |
| `Publisher.AlwaysInStep` | nodes/opcua-publisher.js:214-217 | with distinct ids every writer's counter equals the message counter after any number of messages |
| `Publisher.SameNumberIffDistinct` | nodes/opcua-publisher.js:215-217 | from counters in step, all messages get the NetworkMessage's number if and only if the writer ids are distinct |
| `Publisher.RepeatedNumber` | nodes/opcua-publisher.js:215-217 | a writer already given a number gets another one |
| `Publisher.NumberAt` | nodes/opcua-publisher.js:215-217 | the i-th number is one more than the counter the earlier writers left |
| `Publisher.MergedAt` | nodes/opcua-publisher.js:346-349 | merging values: a new value where there is one, otherwise the old one |
| `Publisher.BigIntIsSomewhere` | nodes/opcua-publisher.js:136-148 | JSON.stringify refuses the values exactly if some name has one with a BigInt in it |
| `Publisher.BuiltMessages` | nodes/opcua-publisher.js:210-279 | what is built: valid keyframes of Variants with the writer's version, or valid KeepAlives without fields, under the configured ids |
| `Publisher.BuiltFieldIsTyped` | nodes/opcua-publisher.js:219-228 | a declared field with a value is a Variant of the declared type with that very value |
| `Subscriber.FieldIsUnwrapped` | nodes/opcua-subscriber.js:125-138 | what a flow is given for a field of every kind, by name |
| `Subscriber.MessageIsLabelled` | nodes/opcua-subscriber.js:199-224 | status, time, number, group and writer of an emitted message, and which source comes first |
| `Subscriber.EveryMatchIsAnswered` | nodes/opcua-subscriber.js:141-226 | every message the filter lets through is emitted or is one error |
| `Subscriber.FilterShutsOut` | nodes/opcua-subscriber.js:158-177 | each criterion shuts out exactly what differs from it |
| `Subscriber.UndecodableIsReported` | nodes/opcua-subscriber.js:246-268 | bytes that do not decode are one error and nothing else; over UDP a chunk is passed over |
| `Subscriber.CompleteStandsForMessage` | nodes/opcua-subscriber.js:246-268 | over MQTT a chunk that completes its message stands for that message, or is one error if the result does not decode |
| `Subscriber.NothingIsTakenBack` | nodes/opcua-subscriber.js:141-268 | a buffer only adds to what was emitted and reported |
| `Publisher.PublisherNode.constructor` | nodes/opcua-publisher.js:125-159 | initial counters, snapshot and queue |
| `Publisher.PublisherNode.Build` | nodes/opcua-publisher.js:210-279 | the message built and the new counters; they move whether or not it is ever sent |
| `Publisher.PublisherNode.Emit` | nodes/opcua-publisher.js:293-306 | while disconnected only the most recent message is kept; connected, the encoding is sent |
| `Publisher.PublisherNode.OnStatus` | nodes/opcua-publisher.js:165-197 | on "connected" the waiting message is sent once and the queue emptied; an "error" changes nothing |
| `Publisher.PublisherNode.OnInput` | nodes/opcua-publisher.js:337-362 | one input, one NetworkMessage, sent or queued |
| `Publisher.PublisherNode.OnCyclicInput` | nodes/opcua-publisher.js:346-352 | cyclic input only merges the latest values |
| `Publisher.PublisherNode.OnTick` | nodes/opcua-publisher.js:309-335 | a keyframe exactly when a value differs from the last keyframe built, otherwise a KeepAlive; with a BigInt among the values nothing is sent, and before the first keyframe the message is counted all the same |
| `Subscriber.SubscriberNode.constructor` | nodes/opcua-subscriber.js:226-239 | a reassembler over MQTT only |
| `Subscriber.SubscriberNode.HandleNetworkMessage` | nodes/opcua-subscriber.js:141-225 | the loop emits the matching messages in order and counts the version errors |
| `Subscriber.SubscriberNode.OnMessage` | nodes/opcua-subscriber.js:240-257 | decode, reassemble, decode again, handle; decode errors never escape |
| `ClientManager.NoLeakedConnection` | lib/opcua-client-manager.js:342-529 | over every considered run: a client still open is the manager's own, and each client is disconnected at most once |
| `ClientManager.DisconnectReleasesAll` | lib/opcua-client-manager.js:609-662 | whenever a disconnect returns, every client is disposed, every session opened was closed, and no attempt or timer is left |
| `ClientManager.AtMostOneAttempt` | lib/opcua-client-manager.js:342-350 | at most one attempt at a time, and a caller of connect() gets its promise |
| `ClientManager.AbortedAttemptIsInert` | lib/opcua-client-manager.js:352-513 | an attempt of an ended lifecycle installs no session, sets no isConnected, arms no timer, emits no error |
| `ClientManager.AbortedLoopAndTimerAreInert` | lib/opcua-client-manager.js:230-296 | nor does a retry loop or timer of an ended lifecycle, which do not even call connect() |
| `ClientManager.AbortedAttemptGivesBack` | lib/opcua-client-manager.js:482-502 | an aborted attempt ends with its client disposed and the session it opened closed |
| `ClientManager.AbortedAttemptOnlyReleases` | lib/opcua-client-manager.js:482-502 | and it has no other way to end |
| `ClientManager.AlwaysInv` | lib/opcua-client-manager.js:342-662 | the invariants hold in every reachable state |
| `ClientManager.StepInv` | lib/opcua-client-manager.js:342-688 | every allowed step keeps single flight, the client and session accounts and what each activation relies on |
| `ClientManager.ResumeAttemptInv` | lib/opcua-client-manager.js:352-513 | so does every continuation of an attempt |
| `ClientManager.ResumeDisconnectInv` | lib/opcua-client-manager.js:609-662 | and of a disconnect |
| `ClientManager.StartDisconnectInv` | lib/opcua-client-manager.js:609-634 | and its start, which ends the lifecycle first |
| `ClientManager.LoopConnectInv` | lib/opcua-client-manager.js:230-251 | and the retry loop's connect |
| `ClientManager.BackgroundDelayGrows` | lib/opcua-client-manager.js:706-712 | the background delay never shrinks, never goes below the configured one, and stays within a minute or that one |
| `ClientManager.ConnectionStrategyIsAccepted` | lib/opcua-client-manager.js:697-704 | the initial delay is positive and below the largest one |
| `ClientManager.BackgroundDelayDoubles` | lib/opcua-client-manager.js:706-712 | the first background delay is the configured one, each later one twice the one before, up to the limit or the 17th |
| `ClientManager.ConnectionStrategyValues` | lib/opcua-client-manager.js:697-704 | the largest delay is the configured one, at least 2; the first is half of it, at most a second |
| `ClientProgress.SuccessConnects` | lib/opcua-client-manager.js:464-484 | over runs: the step by which an attempt succeeds leaves isConnected, its session installed and not closed, its client the manager's and not disposed, without an error |
| `ClientProgress.AttemptMayGoOn` | lib/opcua-client-manager.js:352-513 | in every reachable state an attempt may go on, however its await ends |
| `ClientProgress.ResolvedAttemptConnects` | lib/opcua-client-manager.js:352-488 | over run segments without disconnect, whatever else happens: an attempt whose awaits are all resolved goes on to succeed, without an error |
| `ClientProgress.RejectedAttemptFails` | lib/opcua-client-manager.js:461-512 | over run segments: an attempt whose connection is rejected has failed with exactly one more error and the timer armed |
| `ClientProgress.RefusedAttemptFails` | lib/opcua-client-manager.js:468-512 | and so has one whose session is refused, once its client has been disposed; then there is no client |
| `ClientProgress.OthersLeaveAttempt` | lib/opcua-client-manager.js:342-350 | nothing but its own awaits moves an attempt in flight, and only a disconnect ends its lifecycle |
| `ClientProgress.ConnectBegins` | lib/opcua-client-manager.js:342-350 | connect() without a connection or an attempt in flight begins one |
| `ClientProgress.TimerTriesAgain` | lib/opcua-client-manager.js:673-690 | in any run an armed timer may fire, and then begins an attempt unless connected or one is in flight |
| `ClientProgress.LoopTriesAgain` | lib/opcua-client-manager.js:230-283 | in any run the retry loop waits only for the attempt in flight, hears how it ended, sleeps after a failure, and then connects again |
| `ClientProgress.LoopEnds` | lib/opcua-client-manager.js:244-296 | out of attempts it ends; while it runs, reconnect() joins it |
| `ClientProgress.ReconnectAwaitsAnAttempt` | lib/opcua-client-manager.js:195-251 | reconnect() gives the connection up and awaits the attempt in flight or a new one, unless a recent success or the caller stops it |
| `ClientProgress.OnlySoOften` | lib/opcua-client-manager.js:609-662 | over run segments in which a disconnect has not returned: it and the attempt it waits for go on at most thirteen times |
| `ClientProgress.NeverStuck` | lib/opcua-client-manager.js:609-662 | in every reachable state with a disconnect running, it or the attempt it waits for can go on |
| `ClientProgress.DisconnectReturns` | lib/opcua-client-manager.js:609-662 | so from every reachable state a disconnect returns |
| `ClientProgress.DisconnectOrder` | lib/opcua-client-manager.js:615-662 | an attempt in flight loses its client at once; offline the client goes before the session, online after it |
| `ClientProgress.CleanupOrder` | lib/opcua-client-manager.js:355-372 | a new attempt closes the session left over, then disposes its client, then creates one |
| `ClientProgress.RepairDecides` | lib/opcua-client-manager.js:550-587 | a repaired session is used again; a closed one is replaced by connecting anew; a stale repair changes nothing |
| `ClientProgress.ReconnectedWithoutSession` | lib/opcua-client-manager.js:550-583 | with a session its repair is awaited, without one the manager connects anew |
| `ClientProgress.LossIsNoticed` | lib/opcua-client-manager.js:442-457 | a lost, failed or silent connection is no longer reported, and a failed one arms the timer |
| `ClientProgress.StepSound` | lib/opcua-client-manager.js:342-688 | every allowed step keeps the client a live attempt builds on open, and the sessions numbered |
| `PubSubConnection.AlwaysInv` | nodes/opcua-pubsub-connection.js:163-282 | over balanced runs with any late reports: a transport exists exactly while it is held or in its grace period, none is closed twice or lost, and registered callbacks agree with its flag |
| `PubSubConnection.StepInv` | nodes/opcua-pubsub-connection.js:163-282 | every step keeps that |
| `PubSubConnection.NeverClosedWhileHeld` | nodes/opcua-pubsub-connection.js:218-239 | only a grace timer with no holder, or the node's own closing, closes a transport, and then the current one |
| `PubSubConnection.StaysWithinGrace` | nodes/opcua-pubsub-connection.js:163-255 | a transport that is there stays, and nothing is closed, over any steps and reports without a grace timer firing or the node closing |
| `PubSubConnection.ReacquireWithinGrace` | nodes/opcua-pubsub-connection.js:163-168 | an acquire after any such steps gets that transport, not closed, with no close due any more |
| `PubSubConnection.LateReportsAreIgnored` | nodes/opcua-pubsub-connection.js:181-186 | reports of a detached transport change nothing |
| `PubSubConnection.ReportIsHeard` | nodes/opcua-pubsub-connection.js:181-188 | a status of the current transport sets the flag and reaches every registered callback; an error does neither |
| `PubSubConnection.UnregisteredHearsNothing` | nodes/opcua-pubsub-connection.js:257-259 | over runs, an unregistered callback is told nothing until registered again |
| `PubSubConnection.SurplusReleaseIsHarmlessIff` | nodes/opcua-pubsub-connection.js:213-240 | in any state, a release nobody owed keeps the invariant if and only if there is no transport and no consumer is still counted |
| `PubSubConnection.SurplusReleaseClosesUnderHolder` | nodes/opcua-pubsub-connection.js:213-240 | with consumers left, one release more than is owed has the grace timer close the transport under the last of them |
| `PubSubConnection.SurplusReleaseLeavesATimer` | nodes/opcua-pubsub-connection.js:213-240 | with none left but a transport still there, the next acquire holds a transport whose close is still due |
| `PubSubConnection.UnbalancedReleaseLeavesATimer` | nodes/opcua-pubsub-connection.js:213-240 | example: acquire, release, release, acquire |
| `PubSubConnection.AcquireIsSafeIffOpen` | nodes/opcua-pubsub-connection.js:163-206 | an acquire keeps the invariant if and only if the node is open |
| `PubSubConnection.AcquiredWhileClosingIsForgotten` | nodes/opcua-pubsub-connection.js:264-282 | a transport acquired while the node waits for its close is neither counted nor closed nor due to be closed |
| `PubSubConnection.PubSubConnectionNode.constructor` | nodes/opcua-pubsub-connection.js:163-173 | a fresh node |
| `PubSubConnection.PubSubConnectionNode.AcquireTransport` | nodes/opcua-pubsub-connection.js:163-206 | cancels the timer, counts the reference, creates a transport only when there is none, fails for an unknown type |
| `PubSubConnection.PubSubConnectionNode.ReleaseTransport` | nodes/opcua-pubsub-connection.js:213-241 | the count never goes below zero; the last release arms the grace timer |
| `PubSubConnection.PubSubConnectionNode.OnGraceTimer` | nodes/opcua-pubsub-connection.js:218-239 | closes the transport only if nobody holds it, after detaching it |
| `PubSubConnection.PubSubConnectionNode.FanOut` | nodes/opcua-pubsub-connection.js:181-186 | only the current transport reaches the callbacks |
| `PubSubConnection.PubSubConnectionNode.RegisterStatusCallback` | nodes/opcua-pubsub-connection.js:250-255 | a late callback is told at once when the transport is connected |
| `PubSubConnection.PubSubConnectionNode.UnregisterStatusCallback` | nodes/opcua-pubsub-connection.js:257-259 | the callback is removed and nothing else |
| `PubSubConnection.PubSubConnectionNode.OnClose` | nodes/opcua-pubsub-connection.js:264-275 | closing clears the timer, detaches and closes the transport, and waits if there was one |
| `PubSubConnection.PubSubConnectionNode.OnCloseSettled` | nodes/opcua-pubsub-connection.js:275-282 | after the wait count and callbacks are cleared |
| `Browser.NoNodeTwice` | nodes/opcua-browser.js:155-205 | the start first, then every Object or Variable node that can be reached at most once: at most 1 + their number of browse calls |
| `BrowserItems.BrowseGivesTheTree` | nodes/opcua-browser.js:161-205 | the answer: one item per reference, in order, with name, id, class and depth; children are the items of the item's own node one level deeper; the nodes expanded, in preorder, are the nodes browsed below that are there and have references |
| `BrowserItems.NoNodeExpandedTwice` | nodes/opcua-browser.js:161-205 | so no node's references are shown twice below the top |
| `BrowserItems.BrowsedThroughAReference` | nodes/opcua-browser.js:182-190 | only what a forward reference to an Object or Variable names is browsed |
| `BrowserItems.ForwardReferencesAreFollowed` | nodes/opcua-browser.js:182-199 | with room, every such reference of a browsed node is followed |
| `Browser.BrowsesExactlyTheReachable` | nodes/opcua-browser.js:155-205 | with maxDepth above the number of Object and Variable nodes that can be reached, the nodes browsed are exactly the reachable ones |
| `Browser.AllBrowsedExactly` | nodes/opcua-browser.js:155-205 | the bound is exact: every space with at most n reachable targets has all its reachable nodes browsed if and only if maxDepth exceeds n |
| `Browser.NearBrowsedExactly` | nodes/opcua-browser.js:155-205 | every such space has all nodes nearer than maxDepth browsed if and only if maxDepth exceeds n or is at most 1 |
| `Browser.NearNodeMissed` | nodes/opcua-browser.js:162-190 | depth is not distance: for every maxDepth from 2 on there is a space with that many targets in which a node one reference away is never browsed |
| `BrowserTree.DepthIsDistance` | nodes/opcua-browser.js:155-205 | if no node is led to by two followed references and the start by none, a node is browsed if and only if it is fewer than maxDepth references away |
| `BrowserTree.TreeWalk` | nodes/opcua-browser.js:162-198 | there the visited set never stops the walk, so each walk browses exactly what is near its own start |
| `Browser.ChainWalk` | nodes/opcua-browser.js:162-190 | along a chain the walk stops on the last node, visited but not browsed |
| `Browser.ReachEncloses` | nodes/opcua-browser.js:170-187 | no followed reference leads out of the nodes that can be reached |
| `Browser.BrowseRecursive` | nodes/opcua-browser.js:155-205 | the recursive method with the shared visited set: its items, visited set and calls are those of the walk |
| `Browser.WalkIsNew` | nodes/opcua-browser.js:162-198 | a walk browses only nodes not visited before, each once |
| `Browser.WalkIsComplete` | nodes/opcua-browser.js:162-198 | with room for all nodes left, every node that becomes visited is browsed and all its followed references are visited |
| `Browser.OnlyReachable` | nodes/opcua-browser.js:162-198 | nothing unreachable is browsed |
| `Browser.Manager.Browse` | nodes/opcua-browser.js:167-167 | one browse call, answered or failed |
| `Pool.NoStarvation` | lib/opcua-pool.js:71-81 | in any N picks every member that stays connected is picked, whatever the others do |
| `Pool.PickedWithinDistance` | lib/opcua-pool.js:71-81 | more sharply, by the time the cursor could have reached it |
| `Pool.Fair` | lib/opcua-pool.js:71-81 | with all members connected no member is ever picked two times more than another |
| `Pool.NearerFirst` | lib/opcua-pool.js:71-81 | members nearer the cursor have been picked as often as those further away, or once more |
| `Pool.DisconnectedOnlyWhenNone` | lib/opcua-pool.js:71-81 | a disconnected member is returned only when none is connected; it is the first, and the cursor stays |
| `Pool.PickedOrCloser` | lib/opcua-pool.js:71-81 | a pick gives out a connected member or moves the cursor closer to it |
| `Pool.PooledClientManager.constructor` | lib/opcua-pool.js:28-37 | at least two members, cursor at the first |
| `Pool.PooledClientManager.PickMember` | lib/opcua-pool.js:71-81 | the loop returns the first connected member from the cursor on and moves the cursor past it |
| `Pool.PlacesToConnected` | lib/opcua-pool.js:72-76 | the nearest connected position: connected, with none before it |
| `NodeIds.PrintThenParse` | lib/opcua-utils.js:22-136 | parsing a printed NodeId gives it back if and only if it has a finite namespace number, an identifier type that fits its value, and no infinite value |
| `NodeIds.ParsePrintParse` | lib/opcua-utils.js:22-136 | printing and parsing again changes nothing that was parsed from any string, if and only if its value is not an infinity |
| `NodeIds.ParsedIsCanonical` | lib/opcua-utils.js:22-106 | every parsed NodeId has a finite namespace number and a value of the kind its type says |
| `NodeIds.ParseWithNamespace` | lib/opcua-utils.js:35-50 | only the first ";" separates: everything after it is the identifier |
| `NodeIds.PlainTextIsKept` | lib/opcua-utils.js:27-71 | text without separator, identifier letter or number form is kept as a String identifier if and only if it is neither a well-known name nor one every object has; the former is numeric, the latter null |
| `NodeIds.TextIsKept` | lib/opcua-utils.js:35-50 | a String identifier survives unchanged, with any further ";" and "=" |
| `NodeIds.ParseIntOfShow` | lib/opcua-utils.js:44-44 | parsing a printed number gives the number; an infinity gives NaN |
| `NodeIds.ParseIdentifierOfPrint` | lib/opcua-utils.js:79-106 | each identifier letter reads back its own kind of identifier |
| `NodeIds.ParseIntReads` | lib/opcua-utils.js:48-48 | parseInt skips space, takes a sign, and stops where the digits do |
| `NodeIds.ParseIntNeedsADigit` | lib/opcua-utils.js:48-48 | and gives NaN where no digit stands |
| `NodeIds.ShortForms` | lib/opcua-utils.js:55-58 | without a namespace the letter decides and everything after it is the identifier |
| `NodeIds.NumeralIsRead` | lib/opcua-utils.js:60-66 | a numeral is a numeric identifier, with or without the letter |
| `NodeIds.RootAndObjects` | lib/opcua-utils.js:5-16 | the numbers RootFolder and ObjectsFolder stand for |
| `NodeIds.TypesAndViews` | lib/opcua-utils.js:5-16 | the same for TypesFolder and ViewsFolder |
| `NodeIds.ObjectAndVariableTypes` | lib/opcua-utils.js:5-16 | the same for the object and variable type folders |
| `NodeIds.DataAndReferenceTypes` | lib/opcua-utils.js:5-16 | the same for the data and reference type folders |
| `NodeIds.ServerNode` | lib/opcua-utils.js:14-14 | the same for Server |
| `NodeIds.ServerStatusNode` | lib/opcua-utils.js:15-15 | the same for ServerStatus |
| `NodeIds.PrintedReadsAs` | lib/opcua-utils.js:107-136 | whatever is printed is read with its namespace, 0 if absent, and with its value, as text unless it is numeric |
| `BinaryStream.Stream.ForWriting` | lib/uadp-encoder.js:102-112 | an empty write cursor; size 0 means 1500 |
| `BinaryStream.Stream.ForReading` | lib/uadp-encoder.js:102-106 | a read cursor at the start of the buffer |
| `BinaryStream.Stream.EnsureWrite` | lib/uadp-encoder.js:122-131 | growth keeps what was written, makes room for n more bytes, and gives exactly the larger of double and needed size |
| `BinaryStream.Stream.WriteBytes` | lib/uadp-encoder.js:165-169 | appends exactly these bytes, whatever the buffer size |
| `BinaryStream.Stream.WriteUnsigned` | lib/uadp-encoder.js:133-155 | appends the little-endian bytes, or throws out of range |
| `BinaryStream.Stream.WriteSigned` | lib/uadp-encoder.js:156-163 | appends the two's complement bytes, or throws out of range |
| `BinaryStream.Stream.WriteNullableText` | lib/uadp-encoder.js:171-179 | appends the length prefix and bytes, or the null marker |
| `BinaryStream.Stream.WriteDateTime` | lib/uadp-encoder.js:200-204 | appends the ticks since 1601 |
| `BinaryStream.Stream.ReadBytes` | lib/uadp-encoder.js:231-236 | the next n bytes, or truncated with the cursor inside the buffer |
| `BinaryStream.Stream.ReadUnsigned` | lib/uadp-encoder.js:206-229 | the little-endian value of the next n bytes, or truncated |
| `BinaryStream.Stream.ReadSigned` | lib/uadp-encoder.js:364-428 | the same in two's complement |
| `BinaryStream.Stream.ReadNullableText` | lib/uadp-encoder.js:238-242 | a counted text, null for the marker, or truncated |
| `BinaryStream.Stream.ReadDateTime` | lib/uadp-encoder.js:261-266 | milliseconds from ticks |
| `BinaryStream.Stream.ToBuffer` | lib/uadp-encoder.js:272-274 | exactly what was written, never the room after it |
| `BinaryStream.Stream.Remaining` | lib/uadp-encoder.js:276-278 | the number of unread bytes |
| `Wire.UnsignedRoundTrip` | lib/uadp-encoder.js:133-229 | every value in range reads back, and the rest is untouched |
| `Wire.SignedRoundTrip` | lib/uadp-encoder.js:156-163 | the same for negative values |
| `Wire.NullableTextRoundTrip` | lib/uadp-encoder.js:171-242 | every text shorter than the null marker, and null itself, reads back |
| `Wire.LengthPrefixRoundTripExactly` | lib/uadp-encoder.js:171-242 | of all byte strings a prefix can describe, exactly the one as long as the null marker is lost |
| `Wire.DateTimeRoundTrip` | lib/uadp-encoder.js:200-266 | every millisecond whose ticks fit in 64 bits reads back |
| `Wire.DateTimeReadIsExact` | lib/uadp-encoder.js:261-266 | for any eight bytes the quotient is below 2^53 and the Date valid, and writing it restores the bytes exactly when they name a whole millisecond |
| `Guid.GuidRoundTrip` | lib/uadp-encoder.js:186-255 | every UUID is written and reads back with the same digits in upper case |
| `Guid.GuidBytesOfUpper` | lib/uadp-encoder.js:186-194 | upper-casing does not change the bytes |
| `Guid.GuidTextIsUuid` | lib/uadp-encoder.js:248-255 | zero padding makes what is read a UUID of 8-4-4-4-12 digits |
| `UadpRoundTrip.ScalarRoundTrip` | lib/uadp-encoder.js:290-428 | every scalar of the sixteen built-in types reads back in normal form |
| `UadpRoundTrip.ScalarsRoundTrip` | lib/uadp-encoder.js:453-477 | so do the elements of an array, in order |
| `UadpRoundTrip.VariantRoundTrip` | lib/uadp-encoder.js:435-494 | so does a scalar, array or null Variant |
| `UadpRoundTrip.DataValueMaskBits` | lib/uadp-encoder.js:514-520 | each mask bit says whether its part is present |
| `UadpRoundTrip.DataValueRoundTrip` | lib/uadp-encoder.js:509-544 | a DataValue reads back with exactly the parts present; a null one as empty |
| `UadpRoundTrip.NamedFieldRoundTrip` | lib/uadp-encoder.js:876-884 | a field reads back with its name |
| `UadpRoundTrip.NamedFieldsRoundTrip` | lib/uadp-encoder.js:873-961 | all fields read back in order, no name overwriting another |
| `UadpRoundTrip.DataSetFlagsBits` | lib/uadp-encoder.js:843-855 | each flag bit of the two bytes says what it stands for |
| `UadpRoundTrip.DataSetFlagsRoundTrip` | lib/uadp-encoder.js:843-926 | the flag bytes read back, an absent second one as 0 |
| `UadpRoundTrip.DataSetHeaderRoundTrip` | lib/uadp-encoder.js:843-939 | the DataSetMessage header reads back |
| `UadpRoundTrip.DataSetMessageRoundTrip` | lib/uadp-encoder.js:828-965 | a DataSetMessage reads back in normal form; a RawData one is refused |
| `UadpRoundTrip.PublisherIdRoundTrip` | lib/uadp-encoder.js:552-608 | a publisher id of each width reads back with its kind |
| `UadpRoundTrip.GroupHeaderRoundTrip` | lib/uadp-encoder.js:691-701 | a group header reads back with absent numbers as 0 |
| `UadpRoundTrip.WriterIdsRoundTrip` | lib/uadp-encoder.js:705-709 | the ids of the payload header read back |
| `UadpRoundTrip.FlagBits` | lib/uadp-encoder.js:614-655 | the cascade: each bit of the three flag bytes says what it stands for, and a byte is present if and only if it is not zero |
| `UadpRoundTrip.FlagsRoundTrip` | lib/uadp-encoder.js:1004-1144 | the flag bytes read back, absent ones as 0 |
| `UadpRoundTrip.HeaderFieldsRoundTrip` | lib/uadp-encoder.js:670-719 | all optional header fields read back in every combination |
| `UadpRoundTrip.HeaderRoundTrip` | lib/uadp-encoder.js:1004-1198 | an encoded header followed by anything decodes to the normal header and the rest |
| `UadpRoundTrip.SizedRoundTrip` | lib/uadp-encoder.js:1041-1048 | the sized messages read back one by one; a RawData one is refused |
| `UadpRoundTrip.BodyRoundTrip` | lib/uadp-encoder.js:1033-1223 | the payload reads back when the counts agree |
| `UadpRoundTrip.ReadPayloadCount` | lib/uadp-encoder.js:1200-1223 | the number of messages the decoder gives is fixed by the ids |
| `UadpReencode.VariantAgain` | lib/uadp-encoder.js:435-457 | a Variant read back is written as the same bytes, unless its type became 0 |
| `UadpReencode.DataValueAgain` | lib/uadp-encoder.js:509-528 | so is a DataValue |
| `UadpReencode.DataSetMessageAgain` | lib/uadp-encoder.js:828-902 | so is a DataSetMessage |
| `UadpReencode.HeaderAgain` | lib/uadp-encoder.js:1004-1021 | the header is written as the same bytes in every case |
| `UadpReencode.PayloadAgain` | lib/uadp-encoder.js:1038-1048 | the payload fails again exactly when one message does |
| `UadpChunks.ChunksTile` | lib/uadp-encoder.js:732-753 | the slices are non-empty, bounded and consecutive |
| `UadpChunks.TilesConcat` | lib/uadp-encoder.js:732-753 | consecutive slices join to the payload |
| `UadpChunks.ChunkLength` | lib/uadp-encoder.js:801-809 | a chunk is the probe plus its data |
| `UadpEncoder.WriteGuid` | lib/uadp-encoder.js:186-194 | the cursor appends exactly what the wire format says, or throws what it says: the GUID bytes |
| `UadpEncoder.WriteVariantScalar` | lib/uadp-encoder.js:290-361 | the cursor appends exactly what the wire format says, or throws what it says: a scalar of each type, or the error of its type or range |
| `UadpEncoder.WriteScalars` | lib/uadp-encoder.js:453-453 | the cursor appends exactly what the wire format says, or throws what it says: the elements one after the other, or the first error |
| `UadpEncoder.WriteVariant` | lib/uadp-encoder.js:435-457 | the cursor appends exactly what the wire format says, or throws what it says: a Variant |
| `UadpEncoder.WriteDataValue` | lib/uadp-encoder.js:509-528 | the cursor appends exactly what the wire format says, or throws what it says: a DataValue |
| `UadpEncoder.WriteField` | lib/uadp-encoder.js:880-897 | the cursor appends exactly what the wire format says, or throws what it says: a field in the message's encoding |
| `UadpEncoder.WriteNamedField` | lib/uadp-encoder.js:876-897 | the cursor appends exactly what the wire format says, or throws what it says: a name and a field |
| `UadpEncoder.WriteFields` | lib/uadp-encoder.js:872-899 | the cursor appends exactly what the wire format says, or throws what it says: the count and all fields, nothing for a KeepAlive |
| `UadpEncoder.WriteDataSetFlags` | lib/uadp-encoder.js:843-859 | the cursor appends exactly what the wire format says, or throws what it says: the flag bytes, the second only when not zero |
| `UadpEncoder.WriteDataSetState` | lib/uadp-encoder.js:861-868 | the cursor appends exactly what the wire format says, or throws what it says: sequence number, status and versions, each if present |
| `UadpEncoder.WriteTime` | lib/uadp-encoder.js:713-718 | the cursor appends exactly what the wire format says, or throws what it says: timestamp and picoseconds, the latter only with the former |
| `UadpEncoder.WriteDataSetHeader` | lib/uadp-encoder.js:857-870 | the cursor appends exactly what the wire format says, or throws what it says: the DataSetMessage header |
| `UadpEncoder.WritePublisherId` | lib/uadp-encoder.js:573-591 | the cursor appends exactly what the wire format says, or throws what it says: the publisher id in the width of its type bits |
| `UadpEncoder.WriteGroupHeader` | lib/uadp-encoder.js:691-701 | the cursor appends exactly what the wire format says, or throws what it says: the group header |
| `UadpEncoder.WriteUInt16s` | lib/uadp-encoder.js:708-708 | the cursor appends exactly what the wire format says, or throws what it says: a UInt16 for each number |
| `UadpEncoder.WriteWriterIds` | lib/uadp-encoder.js:705-709 | the cursor appends exactly what the wire format says, or throws what it says: the payload header |
| `UadpEncoder.WriteOptionalPublisherId` | lib/uadp-encoder.js:678-681 | the cursor appends exactly what the wire format says, or throws what it says: the publisher id if flagged |
| `UadpEncoder.WriteOptionalClassId` | lib/uadp-encoder.js:684-686 | the cursor appends exactly what the wire format says, or throws what it says: the class id if flagged |
| `UadpEncoder.WriteOptionalGroupHeader` | lib/uadp-encoder.js:691-701 | the cursor appends exactly what the wire format says, or throws what it says: the group header if flagged |
| `UadpEncoder.WriteOptionalWriterIds` | lib/uadp-encoder.js:705-709 | the cursor appends exactly what the wire format says, or throws what it says: the payload header if flagged |
| `UadpEncoder.WriteOrigin` | lib/uadp-encoder.js:677-701 | the cursor appends exactly what the wire format says, or throws what it says: publisher, class and group |
| `UadpEncoder.WriteOptionalTime` | lib/uadp-encoder.js:713-718 | the cursor appends exactly what the wire format says, or throws what it says: the times if flagged |
| `UadpEncoder.WriteHeaderFields` | lib/uadp-encoder.js:670-719 | the cursor appends exactly what the wire format says, or throws what it says: all header fields |
| `UadpEncoder.WriteHeader` | lib/uadp-encoder.js:1000-1021 | the cursor appends exactly what the wire format says, or throws what it says: the cascade of flag bytes and the header fields |
| `UadpEncoder.WriteBuffers` | lib/uadp-encoder.js:1047-1048 | the cursor appends exactly what the wire format says, or throws what it says: the message buffers one after the other |
| `UadpEncoder.WriteChunkStruct` | lib/uadp-encoder.js:801-807 | the cursor appends exactly what the wire format says, or throws what it says: the chunk struct |
| `UadpEncoder.EncodeDataSetMessage` | lib/uadp-encoder.js:828-902 | the stream-based encoder computes the specified bytes of a DataSetMessage, or the specified error |
| `UadpEncoder.EncodePayload` | lib/uadp-encoder.js:1038-1039 | one buffer per DataSetMessage, or the first error |
| `UadpEncoder.EncodeWhole` | lib/uadp-encoder.js:996-1050 | the specified bytes of the whole message before chunking |
| `UadpEncoder.EncodeChunk` | lib/uadp-encoder.js:765-810 | the specified bytes of one chunk message |
| `UadpEncoder.SplitIntoChunks` | lib/uadp-encoder.js:732-753 | the slicing loop computes the specified chunks, or the MTU error |
| `UadpEncoder.EncodeChunks` | lib/uadp-encoder.js:1061-1099 | probe, slices and one buffer per chunk as specified |
| `UadpEncoder.EncodeNetworkMessage` | lib/uadp-encoder.js:989-1104 | the imperative encoder computes the specified output for every message and MTU, errors included |
| `UadpEncoder.ExtendedPresence` | lib/uadp-encoder.js:642-718 | a field is written if and only if it is present: the gate bits never hide one |
| `UadpDecoder.ReadGuid` | lib/uadp-encoder.js:248-255 | the cursor gives the specified value and leaves the specified rest, or throws what is specified: a GUID |
| `UadpDecoder.ReadVariantScalar` | lib/uadp-encoder.js:364-428 | the cursor gives the specified value and leaves the specified rest, or throws what is specified: a scalar |
| `UadpDecoder.ReadArray` | lib/uadp-encoder.js:471-477 | the cursor gives the specified value and leaves the specified rest, or throws what is specified: the array loop, for any declared length |
| `UadpDecoder.ReadInt32s` | lib/uadp-encoder.js:485-490 | the cursor gives the specified value and leaves the specified rest, or throws what is specified: the dimension loop |
| `UadpDecoder.ReadVariantContent` | lib/uadp-encoder.js:470-480 | the cursor gives the specified value and leaves the specified rest, or throws what is specified: scalar or array |
| `UadpDecoder.ReadVariant` | lib/uadp-encoder.js:464-494 | the cursor gives the specified value and leaves the specified rest, or throws what is specified: a Variant |
| `UadpDecoder.ReadDataValue` | lib/uadp-encoder.js:534-544 | the cursor gives the specified value and leaves the specified rest, or throws what is specified: a DataValue |
| `UadpDecoder.ReadField` | lib/uadp-encoder.js:956-960 | the cursor gives the specified value and leaves the specified rest, or throws what is specified: a field in the message's encoding |
| `UadpDecoder.ReadNamedField` | lib/uadp-encoder.js:953-960 | the cursor gives the specified value and leaves the specified rest, or throws what is specified: a name and a field |
| `UadpDecoder.ReadFields` | lib/uadp-encoder.js:949-962 | the cursor gives the specified value and leaves the specified rest, or throws what is specified: the field loop, a repeated name overwriting |
| `UadpDecoder.ReadDataSetFlags` | lib/uadp-encoder.js:923-926 | the cursor gives the specified value and leaves the specified rest, or throws what is specified: both flag bytes of a DataSetMessage |
| `UadpDecoder.ReadDataSetHeader` | lib/uadp-encoder.js:923-939 | the cursor gives the specified value and leaves the specified rest, or throws what is specified: the DataSetMessage header |
| `UadpDecoder.DecodeDataSetMessage` | lib/uadp-encoder.js:920-965 | the cursor gives the specified value and leaves the specified rest, or throws what is specified: a DataSetMessage |
| `UadpDecoder.ReadPublisherId` | lib/uadp-encoder.js:593-608 | the cursor gives the specified value and leaves the specified rest, or throws what is specified: a publisher id, or the error of its type bits |
| `UadpDecoder.ReadGroupHeader` | lib/uadp-encoder.js:1161-1166 | the cursor gives the specified value and leaves the specified rest, or throws what is specified: a group header |
| `UadpDecoder.ReadUInt16s` | lib/uadp-encoder.js:1171-1173 | the cursor gives the specified value and leaves the specified rest, or throws what is specified: the id or size loop |
| `UadpDecoder.ReadFlags` | lib/uadp-encoder.js:1130-1144 | the cursor gives the specified value and leaves the specified rest, or throws what is specified: version check and flag bytes |
| `UadpDecoder.ReadOrigin` | lib/uadp-encoder.js:1148-1167 | the cursor gives the specified value and leaves the specified rest, or throws what is specified: publisher, class and group |
| `UadpDecoder.ReadHeaderFields` | lib/uadp-encoder.js:1146-1179 | the cursor gives the specified value and leaves the specified rest, or throws what is specified: all header fields |
| `UadpDecoder.ReadChunk` | lib/uadp-encoder.js:1189-1195 | the cursor gives the specified value and leaves the specified rest, or throws what is specified: the chunk struct |
| `UadpDecoder.ReadSizedMessages` | lib/uadp-encoder.js:1207-1212 | the cursor gives the specified value and leaves the specified rest, or throws what is specified: the loop over the size array |
| `UadpDecoder.ReadMessages` | lib/uadp-encoder.js:1200-1223 | the cursor gives the specified value and leaves the specified rest, or throws what is specified: the payload |
| `UadpDecoder.ReadMessage` | lib/uadp-encoder.js:1128-1225 | the cursor gives the specified value and leaves the specified rest, or throws what is specified: the whole message |
| `UadpDecoder.DecodeNetworkMessage` | lib/uadp-encoder.js:1123-1226 | the imperative decoder computes the specified message or error on any bytes |
| `Reassembler.UadpReassembler.constructor` | lib/uadp-reassembler.js:40-45 | an empty reassembler with its cap |
| `Reassembler.UadpReassembler.Push` | lib/uadp-reassembler.js:57-154 | size check, sweep, eviction, range check, recording, tiling: the new entries, the result and the warnings |
| `Reassembler.UadpReassembler.Sweep` | lib/uadp-reassembler.js:78-82 | the loop deletes exactly the expired entries and keeps the order of the others |
| `Reassembler.UadpReassembler.Record` | lib/uadp-reassembler.js:111-153 | the entry is created or extended, and removed once its bytes suffice |
| `Reassembler.UadpReassembler.Clear` | lib/uadp-reassembler.js:156-158 | nothing is left |
| `Reassembler.Assembled` | lib/uadp-reassembler.js:125-126 | the loop sums the lengths of the parts |
| `Reassembler.Tile` | lib/uadp-reassembler.js:133-142 | the loop accepts exactly a tiling from 0 to the total |
| `UadpVectors.MinimalMessage` | test/fixtures/uadp-vectors.js:36-43 | example: the empty message is the byte 01 |
| `UadpVectors.UInt64Publisher` | test/fixtures/uadp-vectors.js:50-58 | example: a UInt64 publisher id |
| `UadpVectors.WithTimestamp` | test/fixtures/uadp-vectors.js:71-82 | example: a Byte publisher id and a timestamp |
| `UadpVectors.WithDataSetClassId` | test/fixtures/uadp-vectors.js:96-107 | example: a UInt16 publisher id and a mixed-endian GUID |
| `UadpVectors.StringPublisher` | test/fixtures/uadp-vectors.js:198-205 | example: a String publisher id |
| `UadpVectors.DataValueVector` | lib/uadp-encoder.js:509-528 | example: a DataValue with all six parts, byte by byte |
| `UadpVectors.DataSetMessageVector` | lib/uadp-encoder.js:843-901 | example: a delta frame with every header field and one field, byte by byte |
| `UadpVectors.TwoKeepAlivesVector` | lib/uadp-encoder.js:1004-1050 | example: a message with group header, two ids, timestamp, size array and two KeepAlives, byte by byte |
| `UadpVectors.ChunkVector` | lib/uadp-encoder.js:801-807 | example: the chunk struct, byte by byte |
| `UadpVectors.MinimalMessageIsSent` | test/fixtures/uadp-vectors.js:36-43 | example: and that byte is what the encoder returns |
| `UadpTypes.KeyFrameBytes` | lib/uadp-encoder.js:828-902 | example: an ordinary keyframe with a number and a field has the single flag byte 09 |
| `UadpTypes.UInt32Publisher` | lib/uadp-encoder.js:552-591 | example: a UInt32 publisher id |
| `UadpTypes.BooleanBytes` | lib/uadp-encoder.js:290-358 | example: Boolean |
| `UadpTypes.ByteBytes` | lib/uadp-encoder.js:290-358 | example: SByte and Byte |
| `UadpTypes.Int16Bytes` | lib/uadp-encoder.js:290-358 | example: Int16 and UInt16 |
| `UadpTypes.Int32Bytes` | lib/uadp-encoder.js:290-358 | example: Int32 and UInt32 |
| `UadpTypes.Int64Bytes` | lib/uadp-encoder.js:290-358 | example: Int64 |
| `UadpTypes.UInt64Bytes` | lib/uadp-encoder.js:290-358 | example: UInt64 |
| `UadpTypes.FloatBytes` | lib/uadp-encoder.js:290-358 | Float and Double take exactly their four or eight bytes |
| `UadpTypes.StringBytes` | lib/uadp-encoder.js:290-358 | example: String and ByteString, and their nulls |
| `UadpTypes.DateTimeAndGuidBytes` | lib/uadp-encoder.js:290-358 | example: DateTime and Guid |
| `UadpTypes.StatusCodeBytes` | lib/uadp-encoder.js:290-358 | example: StatusCode, a negative one included |
| `UadpTypes.OtherNames` | lib/uadp-encoder.js:441-446 | no other name is a built-in type |
| `UadpTypes.ArrayBytes` | lib/uadp-encoder.js:447-454 | example: an array of two and an empty one |
| `UadpTypes.Nulls` | lib/uadp-encoder.js:441-444 | the null Variant and the null DataValue are one zero byte |
| `UadpTypes.AbsentGroupNumbers` | lib/uadp-encoder.js:691-701 | absent group numbers are sent as 0 |

## Left out

- Strings are their UTF-8 bytes, Float and Double four and eight opaque bytes.
- The Number/BigInt distinction of decoded 64-bit values, JavaScript's coercions (a number given as a string, a truthy
  Boolean) and values of another kind than their type: the model says TypeMismatch where the code coerces or throws.
- Guid.GuidRoundTrip: for texts of 8-4-4-4-12 hexadecimal digits only, because what `parseInt` and `Buffer.from`
  make of other texts is not modelled.
- Wire.NullableTextRoundTrip: texts shorter than 4294967295 bytes, as the length prefix allows no more.
- UadpRoundTrip.NetworkMessageRoundTrip: for messages without a chunk descriptor of the caller's own, which the encoder
  flags but does not write.
- Field names that look like array indices or are inherited by every object: `Object.keys` orders the former first,
  and assigning some of the latter has other effects; the model keeps insertion order.
- Invalid fieldEncoding, messageType and non-object arguments, which the encoder refuses first.
- RawData decoding and promoted fields: errors in the code, errors here.
- The JSON encoder, the UDP and MQTT transports, topics, `node.status`, node configuration and its validation.
- Publisher.PublisherNode.OnTick: the comparison of JSON texts is an equality of values, so values JSON cannot
  tell apart (NaN and null) count as different here; that a BigInt makes it throw is modelled.
- Publisher.PublisherNode.OnInput: undefined and null field values are not in the value type.
- Subscriber.SubscriberNode.OnMessage: over UDP the transport reassembles, so only whole messages get there; the
  JSON branch and the topic of MQTT messages are not modelled.
- ClientManager.AlwaysInv: runs in which a new attempt begins while a disconnect is running, or a client event or
  the end of a repair falls into a disconnect or into the cleanup phase of an attempt, are not considered.
- ClientManager.NoLeakedConnection: the manager is a value changed by steps, not an object, since its methods are
  suspended at every await; that a field is updated in place is not modelled.
- ClientManager.StepInv: listeners run after the step that emits, subscriptions are left out, and the number of retries
  and whether the certificate files can be read are the environment's choice.
- Reading, writing, browsing and calling through the manager: they delegate to node-opcua.
- PubSubConnection.AlwaysInv: for balanced acquire and release, nodes not acquired once they close, and callbacks that believe to be disconnected when
  registered; the failure of `connect()` only repeats an error to the callbacks.
- Browser.BrowsesExactlyTheReachable: the server answers a node the same way each time; node ids are their texts.
- Pool.PooledClientManager.PickMember: connectivity is fixed during one pick, as the loop has no await; everything
  else the pool does is delegation.
- NodeIds.PrintThenParse: for numbers below 2^53 in size, infinities and NaN; how JavaScript rounds and prints finite
  numbers above that is not modelled, nor is the sign of a negative zero.
- Data type strings, certificates, the embedded server, HTTP routes and the editor.
