# Verified model of the realtime platform's wire protocol and clients

This project models, in Dafny 4.11, the 256-byte wire protocol of the realtime platform and the client machinery above
it, and proves what the protocol and the clients promise. `dafny verify dfyconfig.toml` checks everything.

| part | files | main results |
|---|---|---|
| checksum | `Crc16`, `CrcDetection`, `CrcOrder`, `CrcCheckValue` | the register is linear in the message; odd, 16-bit-burst and two-bit differences never cancel, four-bit ones can |
| text | `Utf8`, `Utf16`, `TextField`, `FieldReading` | the encoding is the grammar of RFC 3629 in order, the decoders take maximal ill-formed runs; four truncation routes write the same octets; when the readers agree |
| frame codec | `Frame`, `Uuid`, `FrameEncoders`, `FrameDecoders` | four encoders, one frame; round trips; exactly which buffers each decoder accepts, and the error otherwise; decoder inclusion; corruption is rejected |
| chunking | `Chunking`, `Reassembler`, `ChunkTransport` | greedy split; isolation of interleaved messages; end-to-end delivery, round after round, and exactly when it is faithful |
| TypeScript client | `ClientState`, `ClientLifecycle`, `ClientReconnect`, `ClientRejection`, `ClientTraffic`, `ClientRuns`, `ClientAuth`, `RealtimeClient`, `Dispatch` | server view and send conservation in every run; exactly which runs keep at most one thing outstanding, greet every socket once, use each token for its own socket and stay quiet after a close; a client that reconnects is never stranded; dispatch exactly once |
| Rust client | `RustClient`, `RustRealtimeClient` | exactly when queue and channel map agree in the end, over any number of reconnects, lost commands and overlapping calls |
| channels on the wire | `WireChannels`, `ClientOnWire`, `RustOnWire` | exactly when truncated identifiers still tell subscriptions apart, composed with the runs of both clients |
| small text algorithms | `Glob`, `Template`, `Csv` | what a pattern means, in every encoding; what a template means; exactly when CSV reads back |

## How the source is represented

- Octets, code points and UTF-16 code units are bounded integers; a JavaScript string is a sequence of code units in
  which surrogates may be unpaired, a Rust or Python string a sequence of scalars. The 16-bit checksum register is the
  list of its bits, most significant first.
- Mutable objects of the source are classes (`ChunkReassembler`, both `RealtimeClient`s) whose methods update fields;
  both clients carry the history of their steps, each call and callback is proved to extend it by the steps of the state
  machine it takes, and the invariants of all runs are postconditions of every method. Buffers are arrays filled in
  place. Loops of the source are loops.
- The clock, random identifiers, `Number`, network events and promise settlements are inputs. `feed` reads the clock
  twice, so it has two clock inputs. Of `Number` only this is used: a numeral of up to four digits, as a chunk header
  holds, is read as the number it denotes.
- A run of the TypeScript client is any sequence of calls, promise settlements, socket events and timers. A step runs to
  completion before the next; listeners do not re-enter the client. A socket may leave the open state before its close
  event. A failed or resolved WebSocket implementation is a free choice per attempt.
- In the Rust client a `subscribe` or `unsubscribe` call is two steps, the map update and the queueing, and other calls
  and the background worker may come between them. The iteration over the concurrent map visits every key that is in the
  map throughout, may visit others, in any order, more than once.

## Where the code does not do what its documentation says

- `splitByByteBudget` is documented never to cut a code point (sdk-typescript/src/chunking.ts:65-66). A prefix that ends in
  the first half of a surrogate pair is measured as three bytes, so a cut falls inside a pair exactly when the piece has
  192 bytes before it (`Chunking.CutLandsInPair`); the text then does not arrive (`ChunkTransport.EmojiAtTheCutIsLost`).
  `ChunkTransport.WhenTextArrives` gives the exact condition under which every text arrives.
- A message that fits one frame is documented to be sent and received as before chunking existed, a payload that looks
  like a chunk being next to impossible (sdk-typescript/src/chunking.ts:4-15). Nothing guards against one: a payload that
  reads as a chunk is swallowed, or loses its header, at the receiver (`ChunkTransport.SwallowedPayload`).
  `ChunkTransport.SingleFrameArrives` gives the exact condition.
- The codecs are documented as bit-for-bit identical. The encoders are; the decoders are not: they differ on NULs inside a
  field, on ill-formed UTF-8 and on a leading U+FEFF, exactly as `FrameDecoders.BackendWithinPython` and
  `FrameDecoders.PythonWithinScript` state.
- `connect()` has no guard against being called while a socket, an attempt or a timer is outstanding, as the React
  provider does when it disconnects and connects again (sdk-react/src/RealtimeContext.tsx:86-96). At most one is
  outstanding exactly when callers respect that themselves (`ClientLifecycle.AtMostOneOutstanding`). Server view and
  conservation hold regardless; that each socket begins with its only AUTH holds exactly when every socket that opens is
  then the current one (`ClientAuth.AuthComesFirstAndOnce`), that it carries its own attempt's token exactly when no
  other token has arrived since that attempt's own when it makes its socket (`ClientAuth.SocketsOwnTheirTokens`).
  `ClientAuth.OverlappingConnects` and `ClientAuth.OverlappingAttempts` are runs in which they do not.
- Without `getToken` a client is documented to stop after close code 4001 (sdk-typescript/src/client.ts:466-470). With
  overlapping `connect()` calls the other attempt goes on and makes its socket (`ClientRejection.OverlappingRejection`);
  `ClientRejection.RejectedTokenStops` gives the exact condition.
- Channel identifiers are cut to 24 bytes on the wire, so two long identifiers become one to the server
  (`WireChannels.LongNamesCollide`) and unsubscribing from one silences the other (`ClientOnWire.CollidingRun`).
- A frame whose channel is itself a subscribed pattern calls that pattern's handlers twice (`Dispatch.ExactlyOnce`).
- The CSV export is documented as following RFC 4180 (admin/src/lib/utils.ts:90). Rule 2 of its section 2 lets the last
  record end in a line break, so a reader that allows this loses the last row of a single column if its cell is empty
  (`Csv.LastRowIsLost`, exactly then by `Csv.ExportWithFinalBreak`).
- The Rust client's map and queue can disagree if two threads subscribe to and unsubscribe from one channel at once
  (`RustClient.OverlappingCallsDisagree`). The disagreement lasts until somebody calls about the channel again or the
  connection is lost (`RustClient.DisagreementLasts`); the next greeting repairs it (`RustClient.ReconnectRestores`).
  `RustClient.AgreementExact` says exactly when there is none.

## Model

| member | source | states |
|---|---|---|
| Crc16.ComputeChecksum | backend/src/entities/Frame.rs:322-335 | the nested shift-xor loops compute the checksum register of the octets read |
| Crc16.Constants | backend/src/entities/Frame.rs:317-323 | the polynomial is 0x1021 and the initial register 0xFFFF |
| Crc16.RunIsFeed | backend/src/entities/Frame.rs:322-335 | xoring an octet into the high half and shifting eight times equals feeding its eight bits one at a time, for every message |
| CrcCheckValue.CheckValue | backend/src/entities/Frame.rs:317-335 | the checksum of the characters 123456789 is 0x29B1, the check value of CRC-16/CCITT-FALSE |
| CrcDetection.FeedLinear | backend/src/entities/Frame.rs:322-335 | the register is linear: the difference of two messages produces the difference of their registers |
| CrcDetection.ChecksummedEndsAtZero | backend/src/entities/Frame.rs:293-294 | a message followed by its own checksum leaves the register at zero |
| CrcDetection.OddIsNoticed | backend/src/entities/Frame.rs:322-335 | a difference with an odd number of bits never takes a zero register back to zero |
| CrcDetection.BurstIsNoticed | backend/src/entities/Frame.rs:322-335 | a non-zero difference within sixteen consecutive bits never does either |
| CrcOrder.SquareOfPower | backend/src/entities/Frame.rs:322-335 | squaring the register reached by n zero bits gives the one reached by 2n, from one identity on all registers |
| CrcOrder.NoShorterPeriod | backend/src/entities/Frame.rs:322-335 | zero bits bring the register back to 1 for the first time after 32767 of them |
| CrcOrder.TwoBitsAreNoticed | backend/src/entities/Frame.rs:322-335 | a difference of exactly two bits less than 32767 places apart is noticed |
| CrcOrder.FourBitsAreMissed | backend/src/entities/Frame.rs:322-335 | no better is possible: four bits within seventeen places, anywhere, are not noticed |
| Frame.OpcodeOf | backend/src/entities/Frame.rs:97-114 | exactly the bytes 1 to 9 are opcodes, and the opcode found is the one with that byte |
| Frame.OpcodeOctets | backend/src/entities/Frame.rs:97-114 | which octet each opcode is |
| Frame.HeaderExactly | backend/src/entities/Frame.rs:158-173 | over all buffers, the checks pass exactly on 256 octets starting AA 01 and an opcode from 1 to 9 and ending with the checksum of the others; otherwise the first failing check gives the error, with what was found |
| Frame.EncodedPassesChecks | backend/src/entities/Frame.rs:158-173 | every encoded frame passes length, magic, opcode and checksum checks and has each field at its offset |
| Frame.CorruptionIsRejected | backend/src/entities/Frame.rs:158-173 | changing up to three or an odd number of the 2048 bits of an accepted frame, or any bits within sixteen consecutive ones, checksum included, makes the checks fail |
| Utf8.DecodeEncoded | backend/src/entities/Frame.rs:175-178 | strict decoding inverts encoding, for every text |
| Utf8.EncodeDecoded | backend/src/entities/Frame.rs:175-178 | every valid byte string is the encoding of its decoding, so validity is being an encoding |
| Utf8.PatchingEncoded | sdk-typescript/src/protocol.ts:129-133 | on well-formed bytes the replacing and the dropping decoder agree with the strict one |
| Utf8.EncodingsAreTheGrammar | backend/src/entities/Frame.rs:175-178 | the encodings of characters are exactly the byte sequences of the grammar in section 4 of RFC 3629 |
| Utf8.EncodingsAreOrdered | backend/src/entities/Frame.rs:175-178 | and greater characters have greater encodings, so each character has its own |
| Utf8.StepExactly | sdk-typescript/src/protocol.ts:129-133 | a decoder takes a character where its encoding stands, and otherwise the longest beginning of one, or a byte, as ill-formed |
| Utf8.RunsArePatched | sdk-typescript/src/protocol.ts:129-133 | tolerant decoding replaces each such run once and keeps the text around it |
| TextField.FitIsLongest | backend/src/entities/Frame.rs:300-315 | the prefix kept by truncation fits the field and no longer whole-character prefix does |
| TextField.RustTake | backend/src/entities/Frame.rs:302-315 | the walk back to a character boundary keeps exactly that prefix |
| TextField.ScriptTake | sdk-wordpress/assets/js/mio-protocol.js:100-115 | the backward walk over continuation bytes keeps exactly that prefix |
| TextField.LenientCut | sdk-python/realtime_sdk/protocol.py:76-79 | cutting the bytes and decoding them ignoring errors gives exactly the characters before the cut |
| TextField.PythonFieldAgrees | sdk-python/realtime_sdk/protocol.py:67-79 | Python's padded field equals the field of the other implementations |
| TextField.EncodeInto | sdk-typescript/src/protocol.ts:123-126 | writing whole characters while they fit writes exactly that prefix |
| FieldReading.CutEqualsStrip | sdk-python/realtime_sdk/protocol.py:82-86 | cutting at the first NUL and stripping trailing NULs agree exactly when every NUL is trailing |
| FieldReading.ReadField | backend/src/entities/Frame.rs:211-227 | what each of the three readers returns for the field of any text, NULs and byte-order marks included |
| FieldReading.RustReadExactly | backend/src/entities/Frame.rs:211-227 | Rust reads a field as a text exactly when the field is that text, not ending in a NUL, followed by NULs |
| FieldReading.PythonReadExactly | sdk-python/realtime_sdk/protocol.py:82-86 | Python reads a field as a text exactly when the field is that NUL-free text, alone or before a NUL |
| FieldReading.RustThenPython | backend/src/entities/Frame.rs:175-178 | a field valid as a whole is valid up to its first NUL; the texts agree exactly when NULs are trailing |
| FieldReading.PythonThenScript | sdk-typescript/src/protocol.ts:129-133 | on fields Python accepts, the JavaScript reader differs only by dropping a leading U+FEFF |
| Uuid.UuidToBytes | sdk-typescript/src/protocol.ts:96-106 | a UUID in either case gives its sixteen octets, anything else an error |
| Uuid.HexDigits | sdk-typescript/src/protocol.ts:93-105 | which characters are hexadecimal digits, in which order, in both cases |
| Uuid.OctetsInOrder | sdk-typescript/src/protocol.ts:100-105 | octet i is what digits 2i and 2i + 1 denote, dashes left out |
| Uuid.OctetsOfText | sdk-typescript/src/protocol.ts:109-114 | octets to text and back is the identity |
| Uuid.TextOfOctets | sdk-typescript/src/protocol.ts:96-114 | text to octets and back is the text in lower case |
| FrameEncoders.RustBuild | backend/src/entities/Frame.rs:277-298 | the Rust encoders produce the specified 256 octets |
| FrameEncoders.PythonEncode | sdk-python/realtime_sdk/protocol.py:103-119 | the Python encoder produces the same octets |
| FrameEncoders.TypeScriptEncode | sdk-typescript/src/protocol.ts:151-166 | the TypeScript encoder produces the same octets, or rejects the tenant identifier |
| FrameEncoders.ScriptEncode | sdk-wordpress/assets/js/mio-protocol.js:134-149 | the plain JavaScript encoder does too |
| FrameDecoders.RustAccepts | backend/src/entities/Frame.rs:158-227 | Rust accepts exactly the buffers with a good header and two well-formed fields, returns what the octets say, and otherwise the header's error or the one for text |
| FrameDecoders.PythonAccepts | sdk-python/realtime_sdk/protocol.py:122-152 | Python likewise, looking only at what stands before the first NUL of a field |
| FrameDecoders.ScriptAccepts | sdk-typescript/src/protocol.ts:172-204 | JavaScript accepts exactly the buffers with a good header |
| FrameDecoders.Layout | backend/src/entities/Frame.rs:277-298 | opcode, tenant, channel and payload of an encoded frame stand at octets 2, 3, 19 and 43 |
| FrameDecoders.RoundTrip | backend/src/entities/Frame.rs:158-227 | what all three decoders return for the frame of any opcode, tenant, channel and payload |
| FrameDecoders.NulFreeRoundTrip | sdk-rust/src/protocol.rs:143-203 | NUL-free fields come back as their longest prefixes fitting 24 and 211 bytes |
| FrameDecoders.WhenTextSurvives | sdk-python/realtime_sdk/protocol.py:67-86 | a text field survives Python's reader exactly without NULs, Rust's exactly without a final NUL |
| FrameDecoders.ScriptRoundTrip | sdk-typescript/src/protocol.ts:151-204 | JavaScript to JavaScript: the tenant in lower case, the texts as the receiver sees them |
| FrameDecoders.BackendWithinPython | sdk-python/realtime_sdk/protocol.py:122-152 | Python accepts every buffer the backend accepts, same opcode and tenant, texts equal exactly when NULs are trailing |
| FrameDecoders.PythonWithinScript | sdk-typescript/src/protocol.ts:172-204 | JavaScript accepts every buffer Python accepts, texts equal exactly when no field starts with U+FEFF |
| FrameDecoders.InclusionIsStrict | sdk-typescript/src/protocol.ts:129-133 | some buffer JavaScript accepts is invalid UTF-8 to Python |
| FrameDecoders.CorruptionRejectedByAll | sdk-python/realtime_sdk/protocol.py:138-143 | no decoder accepts a frame so corrupted |
| FrameDecoders.AdjacentCorruptionRejected | backend/src/entities/Frame.rs:166-173 | no change confined to two adjacent octets is accepted, across the checksum boundary included |
| Utf16.SanitizeKeepsLength | sdk-typescript/src/chunking.ts:53-55 | encoding and decoding a string keeps its length and changes it exactly when a surrogate is unpaired |
| Utf16.ByteLengthSnoc | sdk-typescript/src/chunking.ts:53-55 | one more unit costs one to three bytes, or one byte when it completes a pair |
| Utf16.PairsAreOrdered | sdk-typescript/src/chunking.ts:53-55 | surrogate pairs denote the characters from U+10000 to U+10FFFF in order |
| Chunking.LongestPrefix | sdk-typescript/src/chunking.ts:71-83 | the binary search finds the longest fitting prefix |
| Chunking.SplitByByteBudget | sdk-typescript/src/chunking.ts:67-91 | the loop computes the greedy split |
| Chunking.SplitIsGreedy | sdk-typescript/src/chunking.ts:71-90 | the first piece is the longest prefix within the budget, and the other pieces are those of the rest |
| Chunking.PiecesJoinToText | sdk-typescript/src/chunking.ts:67-91 | the pieces concatenate to the text, for every string |
| Chunking.PiecesAreTight | sdk-typescript/src/chunking.ts:67-91 | every piece is non-empty and within the budget, every piece but the last at most two bytes below it |
| Chunking.PieceCount | sdk-typescript/src/chunking.ts:110-113 | a text of n bytes has at most n/191 + 1 pieces, whatever its surrogates |
| Chunking.ChunkGuardNeverTrips | sdk-typescript/src/chunking.ts:99-113 | below 191 * 9999 bytes, so at the 64 KiB default, only the size limit can reject a message |
| Chunking.CutLandsInPair | sdk-typescript/src/chunking.ts:74-83 | a cut separates a surrogate pair exactly when the piece has the budget less three bytes before it |
| Chunking.PiecesWellFormed | sdk-typescript/src/chunking.ts:65-91 | all pieces are well-formed exactly when the text is and no cut separates a pair |
| Chunking.EncodeChunks | sdk-typescript/src/chunking.ts:99-118 | the chunks, or the error, of a payload |
| Chunking.ChunksMeaning | sdk-typescript/src/chunking.ts:99-118 | up to 211 bytes a payload is sent as it is, above the limit not at all, otherwise as its pieces in order, each behind SOH, identifier, index and total |
| Chunking.DecimalDenotes | sdk-typescript/src/chunking.ts:117-117 | a number is printed as the decimal numeral without leading zeros that denotes it |
| Chunking.ChunksFitTheirFrames | sdk-typescript/src/chunking.ts:42-43 | every chunk with its header is at most 211 bytes, so the frame encoder never truncates it |
| Chunking.ParseOfChunk | sdk-typescript/src/chunking.ts:129-153 | parsing a chunk gives back identifier, index, total and data, whatever the data |
| Chunking.ParseExactly | sdk-typescript/src/chunking.ts:129-153 | a payload is taken for a chunk exactly when it has the form of one, with index and total as `Number` reads them and the index below the total |
| Reassembler.ChunkReassembler.SweepStale | sdk-typescript/src/chunking.ts:193-198 | exactly the entries older than 30 s are removed |
| Reassembler.TimeLimit | sdk-typescript/src/chunking.ts:193-198 | an entry is stale more than 30 s after its first chunk |
| Reassembler.ChunkReassembler.Feed | sdk-typescript/src/chunking.ts:173-191 | the new pending entries and the result of one chunk |
| Reassembler.FeedExactly | sdk-typescript/src/chunking.ts:173-191 | one chunk, whatever is pending: other entries stay unless older than 30 s; its own grows, the first chunk's total deciding, until complete, and is then joined and gone |
| Reassembler.JoinMeaning | sdk-typescript/src/chunking.ts:186-190 | parts are joined in the order of their indices, a missing one as nothing |
| Reassembler.Isolation | sdk-typescript/src/chunking.ts:173-198 | in any interleaving with a non-decreasing clock, each chunk is answered as if its message had been fed alone |
| Reassembler.Assembly | sdk-typescript/src/chunking.ts:173-191 | chunks in any order with repeats, all within 30 s of the first, give nothing until the last missing index, then the pieces in order |
| Reassembler.AnsweredPerRound | sdk-typescript/src/chunking.ts:173-198 | with no limit on time or repeats, in any interleaving, a chunk is answered exactly when it completes the round of chunks since the last completion or expiry |
| Reassembler.AnsweredOnce | sdk-typescript/src/chunking.ts:173-191 | in any interleaving and within 30 s of the first, of the chunks up to the completing one only that one is answered |
| Reassembler.AnotherRoundIsAnswered | sdk-typescript/src/chunking.ts:184-191 | nothing is remembered of a finished round: another full one is answered with the message again |
| Reassembler.SharedIdentifierMixes | sdk-typescript/src/chunking.ts:176-180 | two messages sharing an identifier are mixed into one |
| ChunkTransport.ChunkThroughFrame | sdk-typescript/src/client.ts:538-548 | a chunk encoded, sent, decoded and parsed yields its header and the delivered piece |
| ChunkTransport.EndToEnd | sdk-typescript/src/chunking.ts:99-191 | through frames, in any order, repeated and interleaved with anything, a message whose chunks arrive within 30 s of the first is answered with nothing until its last missing chunk and then with its delivered pieces |
| ChunkTransport.EveryRoundAnswered | sdk-typescript/src/client.ts:541-548 | at any times: a message's chunks are answered exactly when they complete a round, with the delivered pieces |
| ChunkTransport.DeliveredExactlyOnce | sdk-typescript/src/client.ts:541-548 | within 30 s of the first, only the chunk that completes a message is answered with it, every earlier one with nothing |
| ChunkTransport.WhenTextArrives | sdk-typescript/src/chunking.ts:67-118 | that is the text sent exactly when it is NUL-free and well-formed and no cut separates a pair |
| ChunkTransport.SurrogateFreeArrives | sdk-typescript/src/chunking.ts:67-118 | NUL-free text without surrogates always arrives |
| ChunkTransport.EmojiAtTheCutIsLost | sdk-typescript/src/chunking.ts:65-66 | a family of well-formed texts that do not arrive |
| ChunkTransport.SingleFrameArrives | sdk-typescript/src/client.ts:538-548 | a message that fits one frame is what the handlers of an idle receiver hear exactly when it is well-formed, NUL-free, without leading U+FEFF and does not read as a chunk; any receiver then hears it |
| ChunkTransport.SwallowedPayload | sdk-typescript/src/chunking.ts:14-15 | a payload that reads as a chunk is sent and decoded unchanged and swallowed, or stripped of its header when it claims to be the only chunk |
| ClientLifecycle.OutstandingStep | sdk-typescript/src/client.ts:367-497 | only `connect()` adds to the sockets, attempts and timers outstanding, and it always adds one |
| ClientLifecycle.AtMostOneOutstanding | sdk-typescript/src/client.ts:215-226 | in every run at most one is ever outstanding exactly when `connect()` is only called with none outstanding |
| ClientLifecycle.SilentAfterDisconnect | sdk-typescript/src/client.ts:401-404 | after `disconnect()` no socket is constructed until `connect()`, whatever was in flight |
| ClientLifecycle.QuietUntilConnect | sdk-typescript/src/client.ts:485-497 | with nothing outstanding nothing is scheduled or opened until `connect()` |
| ClientReconnect.ClosedExactly | sdk-typescript/src/client.ts:458-482 | in every state, with and without `getToken`, a close arms exactly one fresh timer if not disconnected, reconnecting and not rejected for good, and otherwise none |
| ClientReconnect.OutstandingExactly | sdk-typescript/src/client.ts:376-497 | whatever is outstanding is followed by exactly one thing, but for the steps listed that end it |
| ClientReconnect.NeverStranded | sdk-typescript/src/client.ts:463-497 | in every run without a final failure a reconnecting client has a socket, an attempt or a timer from `connect()` until `disconnect()` |
| ClientReconnect.DisconnectClearsTimers | sdk-typescript/src/client.ts:220-226 | if `connect()` is only called with nothing outstanding, no timer is armed while disconnected |
| ClientReconnect.OpenClientBeats | sdk-typescript/src/client.ts:522-529 | in every run an open client has its heartbeat running, and each tick sends a PING |
| ClientRejection.QuietExactly | sdk-typescript/src/client.ts:401-497 | from any state, no run opens or schedules anything before `connect()` exactly when disconnected, or no timer is armed, no attempt can make a socket and no socket's end would arm a timer |
| ClientRejection.CloseStops | sdk-typescript/src/client.ts:463-482 | after a close with any code, with and without `getToken`, nothing follows until `connect()` exactly when disconnected, or this close does not reconnect and nothing else outstanding could go on |
| ClientRejection.RejectedTokenStops | sdk-typescript/src/client.ts:463-470 | in every run without `getToken`, after close code 4001 nothing is scheduled or opened until `connect()` exactly when disconnected or nothing else outstanding could |
| ClientRejection.LoneRejectionStops | sdk-typescript/src/client.ts:463-470 | so whenever at most one thing was outstanding |
| ClientRejection.OverlappingRejection | sdk-typescript/src/client.ts:404-418 | after two overlapping `connect()` calls a socket is made after a 4001 close |
| ClientTraffic.SubscribingKeeps | sdk-typescript/src/client.ts:318-332 | subscribing keeps the traffic invariant: server view, tidy keys, conservation |
| ClientTraffic.UnsubscribingKeeps | sdk-typescript/src/client.ts:355-365 | unsubscribing keeps it, also when repeated or never subscribed |
| ClientTraffic.SendingKeeps | sdk-typescript/src/client.ts:507-513 | sending or queueing keeps it |
| ClientTraffic.OpeningKeeps | sdk-typescript/src/client.ts:420-430 | whichever socket opens, the greeting - AUTH, subscriptions, queue - establishes it on the current one |
| ClientRuns.InvRun | sdk-typescript/src/client.ts:367-520 | every run of calls, settlements and socket events keeps the traffic invariant, whenever `connect()` is called |
| ClientRuns.OpenSocketKnowsSubscriptions | sdk-typescript/src/client.ts:318-365 | in every run, whenever the socket is open, the SUB and UNSUB frames sent on it leave exactly the keys of `subscriptions`; no key has an empty handler set |
| ClientRuns.EveryFrameSentOnce | sdk-typescript/src/client.ts:507-520 | in every run, data frames sent over all sockets, then the queue, are the accepted frames in call order; the queue is empty while open |
| ClientAuth.AuthComesFirstAndOnce | sdk-typescript/src/client.ts:420-426 | in every run, each socket's first frame is at all times its only AUTH, sent when it opens, exactly when every socket that opens is then the current one |
| ClientAuth.SocketsOwnTheirTokens | sdk-typescript/src/client.ts:376-418 | with `getToken`, in every run, each socket carries the token fetched by the attempt that made it exactly when, each time an attempt gets to make its socket, the last token to have arrived is the one that arrived for it |
| ClientAuth.AuthUsesItsOwnToken | sdk-typescript/src/client.ts:376-423 | with `getToken`, each AUTH is first, only and carries the token fetched for its socket, all along, exactly when both conditions hold |
| ClientAuth.DisciplineSuffices | sdk-typescript/src/client.ts:215-218 | calling `connect()` only with nothing outstanding meets both conditions |
| ClientAuth.OverlappingConnects | sdk-typescript/src/client.ts:416-430 | two overlapping `connect()` calls can leave an open socket without AUTH |
| ClientAuth.OverlappingAttempts | sdk-typescript/src/client.ts:376-418 | two overlapping attempts can make a socket with a token the other one fetched |
| WireChannels.OnWireIsParsed | backend/src/entities/Frame.rs:212-219 | the channel the backend reads is the truncated identifier |
| WireChannels.NamesExact | backend/src/entities/Frame.rs:302-315 | a server that sees the cut identifiers holds what the client believes, for every frame sequence over a set of channels, exactly when no two share one |
| WireChannels.LongNamesCollide | backend/src/entities/Frame.rs:302-315 | identifiers that share their first 24 bytes are one on the wire |
| ClientOnWire.ServerHoldsSubscriptions | sdk-typescript/src/client.ts:499-503 | in every run over a set of channels the server of an open socket holds exactly the identifiers of `subscriptions`, exactly when no two channels share one |
| ClientOnWire.CollidingRun | sdk-typescript/src/client.ts:355-365 | for any two channels that share one, subscribing to both and unsubscribing from the first leaves the server with nothing and the client with the second |
| RustOnWire.ServerWillHoldChannels | sdk-rust/src/client.rs:395-402 | over channels that share no identifier, the server will hold exactly the identifiers of the map's keys exactly when the Rust client's last words are kept |
| RustOnWire.NamesMustDiffer | sdk-rust/src/client.rs:300-303 | and in every run whose last words are kept it does exactly when no two channels share one |
| RealtimeClientClass.RealtimeClient.Subscribe | sdk-typescript/src/client.ts:318-332 | adds the handler, sends one SUB if the channel is new and the socket open and nothing otherwise, and keeps every run invariant: an open socket has been told exactly the keys, sent and queued frames are the accepted ones, AUTH and tokens as their conditions say |
| RealtimeClientClass.RealtimeClient.UnsubscribeHandler | sdk-typescript/src/client.ts:355-365 | removes this handler of this channel only, sends one UNSUB if it was the last and the socket is open, does nothing if it is absent, and keeps them |
| RealtimeClientClass.RealtimeClient.Publish | sdk-typescript/src/client.ts:238-242 | accepts one frame per chunk in order, or nothing if the payload is too large, and keeps them |
| RealtimeClientClass.RealtimeClient.Unicast | sdk-typescript/src/client.ts:246-250 | likewise for one user |
| RealtimeClientClass.RealtimeClient.Replay | sdk-typescript/src/client.ts:308-310 | accepts one REPLAY frame whose payload is the decimal numeral, without leading zeros, of the time, and keeps them |
| RealtimeClientClass.RealtimeClient.SendOrQueue | sdk-typescript/src/client.ts:507-513 | sends on an open socket, queues otherwise |
| RealtimeClientClass.RealtimeClient.ResubscribeAll | sdk-typescript/src/client.ts:499-503 | sends one SUB per key in insertion order |
| RealtimeClientClass.RealtimeClient.FlushPendingSends | sdk-typescript/src/client.ts:515-520 | sends the queue in order and empties it |
| RealtimeClientClass.RealtimeClient.Connect | sdk-typescript/src/client.ts:215-218 | adds exactly one thing outstanding and keeps the run invariants |
| RealtimeClientClass.RealtimeClient.Disconnect | sdk-typescript/src/client.ts:220-226 | the current socket starts closing and is given up, the reconnect timer and the heartbeat are cleared; nothing more outstanding, the run invariants kept |
| RealtimeClientClass.RealtimeClient.OnTokenResolved | sdk-typescript/src/client.ts:376-387 | stores the token, ends the attempt if disconnected, keeps the run invariants |
| RealtimeClientClass.RealtimeClient.OnTokenRejected | sdk-typescript/src/client.ts:381-385 | a fresh timer takes the attempt's place if not disconnected and reconnecting, nothing otherwise; run invariants kept |
| RealtimeClientClass.RealtimeClient.OnImplResolved | sdk-typescript/src/client.ts:393-418 | a socket with the stored token takes the attempt's place and becomes current, unless disconnected or without a token; run invariants kept |
| RealtimeClientClass.RealtimeClient.OnOpen | sdk-typescript/src/client.ts:420-430 | the current socket, opening, has been sent its AUTH, one SUB per key in insertion order and the queue, in this order; if another open socket is current, that one is sent all this with the new socket's token; otherwise nothing is; run invariants kept |
| RealtimeClientClass.RealtimeClient.OnClose | sdk-typescript/src/client.ts:458-482 | no current socket and no heartbeat; exactly one fresh timer armed if not disconnected, reconnecting and not (4001 without `getToken`), timers unchanged otherwise; run invariants kept |
| RealtimeClientClass.RealtimeClient.OnTimer | sdk-typescript/src/client.ts:494-496 | an attempt, first waiting for a token with `getToken`, takes the timer's place unless disconnected; run invariants kept |
| RealtimeClientClass.RealtimeClient.OnHeartbeat | sdk-typescript/src/client.ts:522-529 | one PING on an open current socket, nothing otherwise; run invariants kept |
| Dispatch.Route | sdk-typescript/src/client.ts:559-569 | how often each registered handler is called |
| Dispatch.ExactlyOnce | sdk-typescript/src/client.ts:559-569 | called are exactly the handlers whose key, read as a pattern, matches the channel; each once, but twice exactly where the key is the channel and has an asterisk |
| Dispatch.DispatchFrame | sdk-typescript/src/client.ts:538-570 | an incomplete chunk calls nobody; a complete message is routed once |
| RustClient.StepKeeps | sdk-rust/src/client.rs:257-312 | every step of callers and worker, in any order, keeps: the accepted commands and those since the greeting end alike on every channel, an untouched channel is greeted as the map has it |
| RustClient.ChannelAgreement | sdk-rust/src/client.rs:328-436 | per channel, in every run: what the server will hold agrees with the map exactly when nothing since the greeting concerns the channel or its last accepted command says what the map says |
| RustClient.AgreementExact | sdk-rust/src/client.rs:328-436 | in every greeted state with no call half done, the frames of the socket followed by the queue leave the server with the keys of the map exactly when that holds of all channels |
| RustClient.QueueAgreement | sdk-rust/src/client.rs:257-312 | so always if no call begins while another is in flight for its channel |
| RustClient.DrainedAgreement | sdk-rust/src/client.rs:395-402 | once the queue is drained the frames of the socket alone do, under the same exact condition |
| RustClient.QueueConservation | sdk-rust/src/client.rs:414-419 | commands taken and commands queued are the accepted ones in order; at most one is lost per lost connection |
| RustClient.OverlappingCallsDisagree | sdk-rust/src/client.rs:257-303 | two overlapping calls on one channel can make map and queue disagree |
| RustClient.DisagreementLasts | sdk-rust/src/client.rs:404-436 | which then lasts as long as the connection does and nobody calls about the channel |
| RustClient.ReconnectRestores | sdk-rust/src/client.rs:395-402 | and ends with the next greeting, for every channel with no call in flight and no command queued |
| RustClientClass.RealtimeClient.SendFrame | sdk-rust/src/client.rs:305-312 | queues a command unless the worker has ended |
| RustClientClass.RealtimeClient.Subscribe | sdk-rust/src/client.rs:257-275 | an uninterrupted call adds the key and queues its SUB; exact agreement and conservation kept |
| RustClientClass.RealtimeClient.Unsubscribe | sdk-rust/src/client.rs:300-303 | an uninterrupted call removes the key and queues its UNSUB; exact agreement and conservation kept |
| RustClientClass.RealtimeClient.FinishCall | sdk-rust/src/client.rs:265-272 | the second half of a call interrupted after its map update keeps them too |
| RustClientClass.RealtimeClient.OnConnected | sdk-rust/src/client.rs:391-393 | AUTH first, then the iteration over the map begins |
| RustClientClass.RealtimeClient.ResubscribeOne | sdk-rust/src/client.rs:398-402 | one SUB for a key of the map |
| RustClientClass.RealtimeClient.FinishGreeting | sdk-rust/src/client.rs:398-402 | after the iteration the server holds exactly the map's keys among the channels nobody is touching |
| RustClientClass.RealtimeClient.ForwardNext | sdk-rust/src/client.rs:414-419 | forwards the head of the queue, or loses only it with the connection; exact agreement kept, and full agreement once drained if calls did not overlap on a channel |
| Glob.GlobMatchLoop | sdk-typescript/src/protocol.ts:213-225 | the loop over suffixes decides the recursive relation |
| Glob.GlobMeaning | sdk-typescript/src/protocol.ts:213-225 | a candidate matches exactly when it is the pattern with arbitrary text at each star |
| Glob.GlobConcat | sdk-typescript/src/protocol.ts:213-225 | a concatenated pattern matches exactly the concatenations of matches |
| Glob.LiteralMatch | sdk-typescript/src/protocol.ts:222-222 | a pattern without stars matches only itself |
| Glob.DoubleStar | sdk-typescript/src/protocol.ts:216-220 | `**` means `*` anywhere in a pattern |
| Glob.SameInEveryEncoding | sdk-rust/src/protocol.rs:240-249 | in any self-synchronising encoding the encoded match is the match |
| Glob.MatchersAgree | sdk-python/realtime_sdk/protocol.py:155-169 | Rust on bytes, Python on code points and JavaScript on code units answer alike, for every pattern and candidate |
| Template.RenderLoop | backend/src/entities/MessageTemplate.rs:38-61 | the loop terminates with the rendering of the body |
| Template.TrimMeaning | backend/src/entities/MessageTemplate.rs:47-47 | trimming removes the whitespace at both ends of a name and nothing else |
| Template.TrimIsUnique | backend/src/entities/MessageTemplate.rs:47-47 | and only its result does that |
| Template.RenderFills | backend/src/entities/MessageTemplate.rs:38-61 | in every template written as literals and keys, with whitespace around the keys, each placeholder becomes its key's value or nothing and everything else stays |
| Template.UnclosedIsLiteral | backend/src/entities/MessageTemplate.rs:53-56 | an unclosed `{{` and everything after it is unchanged |
| Template.RenderPrinted | backend/src/entities/MessageTemplate.rs:42-60 | a printed list of literals and placeholders renders to literals and values in order, values not scanned again |
| Template.ParseIsCanonical | backend/src/entities/MessageTemplate.rs:42-58 | every body is the print of literals and placeholders, found leftmost first |
| Template.ParseIsUnique | backend/src/entities/MessageTemplate.rs:42-58 | in only one way |
| Template.RenderMeaning | backend/src/entities/MessageTemplate.rs:38-61 | rendering is the value of that reading, for every body |
| Csv.ReadBackField | admin/src/lib/utils.ts:91-93 | a reader of the fields of section 2 of RFC 4180 recovers any field value |
| Csv.FieldAsIs | admin/src/lib/utils.ts:91-93 | a field is written as it is exactly when it has no quote, comma or line break |
| Csv.ExportReadsBack | admin/src/lib/utils.ts:96-105 | read with every line break as the start of a record, the first record has each column's header and record 1 + i each column's cell of row i, in column order, with no record more |
| Csv.ExportWithFinalBreak | admin/src/lib/utils.ts:96-105 | read with an optional line break after the last record, they do exactly unless the only column ends in an empty cell; then all records but that last one do |
| Csv.LastRowIsLost | admin/src/lib/utils.ts:104-104 | the smallest such table |
| Csv.DocumentIsInjective | admin/src/lib/utils.ts:96-105 | different tables never share a document |

## Left out

- HTTP calls (`publishTemplate`), adapters, React, PHP, Laravel, Android and the other user-interface code: network or interface glue.
- The Python client and the embedded JavaScript clients: the same designs as the clients modelled here.
- The backend's routing, presence, history, rate limiting and push services.
- Reconnect delays: jitter and exponential backoff only delay a timer; that a timer is armed, fires or is cleared is modelled.
- `emit` and its listeners, and listeners that call back into the client.
- An invalid tenant identifier makes every `send` of the TypeScript client throw; the client model assumes a valid one.
- `Number` on strings other than decimals: it is an arbitrary function that reads decimals back.
- A Python string with surrogate code points, which `encode` rejects.
- Delivery of sent frames by the network: conservation is about what is handed to a socket.
- `wsImplPromise`, cached after its first use: each attempt may see either outcome.
- Order in which a handler set is traversed: `Dispatch` states how often each handler is called.
- Ending the Rust client by `disconnect` or by dropping it, which aborts the worker.
- Broadcast buffers of the Rust client and their overflow; only the keys of its channel map are modelled.
