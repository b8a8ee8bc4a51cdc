# PacketLab: a verified model of its capture, storage and review cores

PacketLab captures traffic, stores it and lets a user review requests in flight. This project models the parts of it
where a mistake would be silent, and proves what they promise.

- **HTTP reassembly** (`Bytes`, `HttpSyntax`, `MessageText`, `HeaderText`, `Framing`, `ChunkedCodec`, `TcpStream`,
  `Segmentation`, `Extractions`, `Stalls`, `Closings`, `Exchanges`, `Conversations`, `Samples`, `Conservation`,
  `EventStreams`). A TCP stream's two buffers, the framing of messages, the pairing of requests with responses, and the
  drain at the close. `MessageText`, `HeaderText` and `Conversations` write messages as text and show, through the framing
  and the pairing, the very records that come out: verb, path, status, header values, body. On readable requests what is
  emitted depends on the bytes and not on how TCP cut them up, and equals an independent pairing of the two byte streams.
  With unreadable requests the code does not always keep this: `Stalls` proves exactly when it does before the close, and
  `Closings` exactly when it does once the stream is closed.
- **Flows and TLS names** (`FlowKey`, `FlowTable`, `FlowRuns`, `FlowDirections`, `Sni`, `TlsStreams`). The bounded table of
  streams with its eviction, which side each packet is fed to, and the parser that finds the server name in a ClientHello.
- **The ring and its writers** (`MemRing`, `AsyncWriter`). A drop-oldest ring with a byte ledger, refined from a plain
  queue, and the worker pool that drains it.
- **Two concurrent protocols** (`Interceptor`, `BatchWriter`). State machines over the steps the code takes under its
  locks; the theorems hold for every interleaving.
- **The store's pure cores** (`ApiMap`, `ApiMapMethods`, `ApiMapLeaves`, `ApiMapNode`, `PathSegments`, `Utf8`,
  `LikeEscape`), **streamed LLM responses** (`StreamAssembler`, `BlockOrder`), the **rate limiter** (`RateLimiter`) and the
  **price lookup** (`Pricing`).

Objects that the code updates in place are classes here, each proved against functions on values; the lemmas are
about those functions. `dafny verify dfyconfig.toml` checks everything.

## How to read the model

- Bytes are integers below 256. Integers are unbounded; where the code's width could matter: `x & mask` on the ring is
  `x % size`, the size being a power of two; the ring's byte count stays below (size-1) times 512 MiB, far from 2^64;
  a Content-Length large enough to overflow the sum in `findHTTPMessageEnd` makes that sum negative, which its callers
  treat like "not yet", as the model does; `ScanInt` and `ScanHex` refuse what does not fit 64 bits.
- The store is an oracle: `SaveBatch` commits all or nothing, `Save` gives an id or fails, and every theorem holds for
  all its answers. Map iteration order is arbitrary. Clocks are parameters; a timer may fire at any time until it is
  stopped, and a stopped timer delivers nothing more, as in the Go version that `go.mod` asks for.
- Each stream carries a log of what leaves it (emitted exchanges, saved or lost event streams, TLS names) and the list
  of requests parsed. They stand for the calls to `emitNonBlocking`, `Save` and `UpdateResBody`.
- "Covered" runs in `Segmentation` are those whose first segment is recognised as HTTP, whose client stream consists of
  readable requests without an LF LF before the blank line, whose server stream starts no event stream, and that never
  exceed the buffer limit. `FirstBytesDecide`, `HeaderEndSettlesIff`, `Stalls.CutsAgreeIff` and
  `Closings.ClosedCutsAgreeIff` say what happens outside, and `ClientWire` and `ServerWire` that streams of whole
  messages are inside.
- A client's port tells the two sides of a flow apart once a SYN or a SYN-ACK has been seen (`HandshakeDirects`); otherwise
  the first packet's ports are guessed from, and `GuessDirects` says exactly when that is right. With the same port on both
  sides, or port 0, the code cannot tell (`EqualPorts`).

Where the code and its comments or names disagree, the model follows the code: `parseTransferEncoding` cuts one byte
too few and keeps a colon; `parseHTTPRequest` never reads the last header line; the ring's "byte ceiling" is not a
ceiling (`CeilingBroken`); a request read on an event stream may never be given a record (`EventStreamLoses`), nor one
whose event stream cannot be saved (`CloseLosesUnsaved`); a successful `Resolve` can be lost although the comment on
`awaitDecision` promises otherwise (`LostDecision`); `LookupPricing` depends on map order if two keys differ only in case.

## Model

| member | source | states |
|---|---|---|
| `HttpSyntax.LastLineUnread` | internal/capture/engine.go:1418-1438 | the last line of a request header block, which has no line feed of its own, never reaches the header map, whatever it says |
| `MessageText.ResponseRoundTrip` | internal/capture/engine.go:1295-1346 | a written response of three status digits, a reason, header lines and a body is read back: its status, the last value of each name, and its body; it is refused exactly when the status is not one from 100 to 599 |
| `MessageText.RequestRoundTrip` | internal/capture/engine.go:1389-1465 | a written request is read back: its verb, its path with a slash in front, all its header lines but the last, and its body; without a header line it is not read |
| `HeaderText.LengthRead` | internal/capture/engine.go:1353-1369 | the first header line named content-length, in any case, with a decimal value below 2^63 gives the length, whatever stands behind the header |
| `HeaderText.LengthAbsent` | internal/capture/engine.go:1353-1369 | without such a line a header has no length |
| `HeaderText.NumberScans` | internal/capture/engine.go:1353-1369 | decimal digits, with a sign or without, are scanned to their value exactly when it fits 64 bits, whatever follows them |
| `HeaderText.ChunkedRead` | internal/capture/engine.go:1371-1386 | a written header is chunked exactly when its first line named transfer-encoding contains "chunked"; the stray colon does not matter |
| `HeaderText.StatusRead` | internal/capture/engine.go:1093-1121 | the status of a written response header is read, whatever stands behind the header |
| `HeaderText.RecognisedIff` | internal/capture/engine.go:929-946 | first bytes are recognised as HTTP exactly when there are none or the first four are one of ten openings, given as bytes |
| `Conversations.WrittenFramed` | internal/capture/engine.go:1205-1292 | a written message with a body of n bytes and "Content-Length: n", or with chunks, or without a body, ends at its last byte, whatever follows, and nowhere before |
| `HttpSyntax.ParseResponseParts` | internal/capture/engine.go:1309-1346 | a response is accepted only with a status from 100 to 599, and carries its body unchanged |
| `Framing.FindMessageEnd` | internal/capture/engine.go:1205-1252 | the framing loop finds the end that the specification MessageEnd gives: Content-Length first, then chunked, then the header alone |
| `Framing.FindHeaderEnd` | internal/capture/engine.go:1205-1225 | the two search loops find the first CRLF CRLF, else the first LF LF |
| `Framing.FindChunkedEnd` | internal/capture/engine.go:1255-1292 | the chunk loop finds the end of the chunked body, or none yet |
| `Framing.ChunkedEndStable` | internal/capture/engine.go:1255-1292 | the end of a chunked body, once found, does not move when bytes are appended |
| `Framing.MessageEndStable` | internal/capture/engine.go:1205-1252 | an end found behind CRLF CRLF is positive, within the data, and unchanged by appended bytes |
| `Framing.CleanEndStable` | internal/capture/engine.go:1205-1252 | on a stream whose first blank line is CRLF CRLF an end found on any prefix is the end on the whole stream |
| `Framing.MessageEndTrims` | internal/capture/engine.go:1205-1252 | a message is framed by its own bytes: cutting off what follows it does not move its end |
| `Framing.HeaderEndSettlesIff` | internal/capture/engine.go:1206-1225 | the header end is the same on every prefix that shows one exactly when no LF LF stands before a CRLF CRLF: the exact limit of the LF fallback |
| `Framing.HeaderEndIs` | internal/capture/engine.go:1205-1225 | the header ends behind the first CRLF CRLF, and where there is none behind the first LF LF, both given as bytes |
| `ChunkedCodec.ChunkedRoundTrip` | internal/capture/engine.go:1255-1292 | for every list of chunks of 1 byte to 100 MiB, with any hexadecimal digits and chunk extensions, the encoded body followed by anything is found at exactly its own length, and no proper prefix of it is taken for a body (section 7.1 of RFC 9112, no trailers) |
| `ChunkedCodec.PlainRoundTrip` | internal/capture/engine.go:1255-1292 | the same, whole and for proper prefixes, for the plain encoder: lower-case sizes computed from the data, no extensions |
| `ChunkedCodec.HugeChunkRefused` | internal/capture/engine.go:1270-1274 | a body with a chunk announced as larger than 100 MiB has no end |
| `ChunkedCodec.BareFeedEnds` | internal/capture/engine.go:1275-1284 | behind the last chunk a bare line feed ends the body as well |
| `ChunkedCodec.HexIgnoresCase` | internal/capture/engine.go:1269-1274 | capital hexadecimal digits stand for the same size |
| `ChunkedCodec.MessageRoundTrip` | internal/capture/engine.go:1205-1252 | a header and the body it announces are framed at exactly their end: not before the last byte, not later whatever follows |
| `TcpStream.TCPStream.TryExtractHTTP` | internal/capture/engine.go:973-1091 | the extraction loop, on the buffers in place, is the recursive Extract; it terminates because every continuing round shortens the server buffer |
| `TcpStream.TCPStream.TakeResponseMessage` | internal/capture/engine.go:997-1090 | one response half-round: waits, skips, pairs, or starts an event stream, and says whether the loop goes on |
| `TcpStream.TakeResponse` | internal/capture/engine.go:997-1090 | a round that continues has strictly shortened the server buffer |
| `TcpStream.TCPStream.BeginEvents` | internal/capture/engine.go:1015-1062 | an event-stream header is saved at once; a failed save ends the stream |
| `TcpStream.TCPStream.FeedSegment` | internal/capture/engine.go:814-881 | feeding a segment: event bytes, first-bytes check, extraction, truncation, in this order |
| `TcpStream.Truncate` | internal/capture/engine.go:916-927 | truncation leaves at most the limit, and all of a buffer below the limit |
| `TcpStream.TruncateKeepsEnd` | internal/capture/engine.go:916-927 | what truncation leaves is always the end of the buffer |
| `TcpStream.TruncateIs` | internal/capture/engine.go:916-927 | a buffer above the limit is cut to its last bytes, and behind the first blank line that starts among their first 4096 |
| `TcpStream.TCPStream.TryExtractHTTPOnClose` | internal/capture/engine.go:1125-1197 | the close loop is the function Close and makes at most three rounds |
| `TcpStream.CloseBounded` | internal/capture/engine.go:1125-1197 | from any state the close loop makes at most three rounds and ends with no pending request and an empty client buffer |
| `TcpStream.ExtractShrinks` | internal/capture/engine.go:973-1091 | extraction never grows a buffer and stops with a pending request only where the response side is blocked |
| `TcpStream.TCPStream.HandleClose` | internal/capture/engine.go:949-970 | closing flushes an event stream, drains any other, and leaves a non-HTTP stream alone |
| `Segmentation.ExtractEarly` | internal/capture/engine.go:973-1091 | extracting before more bytes arrive and again after is the same as extracting once after: the core of independence from TCP segmentation |
| `Segmentation.RunIsOneExtraction` | internal/capture/engine.go:814-881 | any cutting and interleaving of covered streams leaves the stream, buffers and log, as one extraction of all the bytes would |
| `Segmentation.RunEmitsPairs` | internal/capture/engine.go:814-881 | the log of any covered run is the requests of the client bytes zipped with the final responses of the server bytes, both defined without reference to the run |
| `Segmentation.CutsAgree` | internal/capture/engine.go:949-1091 | two ways of cutting the same bytes agree on the whole state and on what closing emits |
| `Segmentation.FirstBytesDecide` | internal/capture/engine.go:844-863 | on otherwise well-framed streams the pairs come out exactly when the first segment is recognised as HTTP, or there are none to emit |
| `Segmentation.TotalsWithinLimit` | internal/capture/engine.go:868-880 | a run whose bytes fit the limit in each direction is never truncated, whatever the cutting |
| `Stalls.CutKicks` | internal/capture/engine.go:814-995 | whatever the cutting of two framed byte streams, unreadable requests included, the stream is left as some number of extractions of all the bytes would leave it |
| `Stalls.CutsAgreeIff` | internal/capture/engine.go:973-995 | before the close all cuttings of two framed byte streams emit one log exactly when no readable request behind an unreadable message has a final response left for it, and then every cutting emits every pair |
| `Stalls.CutEmits` | internal/capture/engine.go:973-1091 | whatever the cutting, what is emitted before the close is a beginning of all pairs, at least up to the first unreadable message |
| `Stalls.AtOnceStops` | internal/capture/engine.go:976-995 | the client stream in one piece: nothing behind an unreadable message is emitted |
| `Stalls.ByBytesEmitsAll` | internal/capture/engine.go:976-995 | the client stream byte by byte: every pair is emitted |
| `Closings.ClosedCutsAgreeIff` | internal/capture/engine.go:1125-1197 | once the stream is closed, all cuttings have emitted the same exactly when nothing is late: extraction reaches at most one unreadable message, or two and then what the close itself can take up as due; each has then emitted every pair and the first request without a response |
| `Closings.OneUnreadableAgrees` | internal/capture/engine.go:1125-1197 | with at most one unreadable message in the client stream all cuttings agree once the stream is closed |
| `Closings.CoveredCloses` | internal/capture/engine.go:1125-1197 | the log of a closed stream in terms of its bytes: the pairs, then the first request without a final response with what is left of the server bytes; framed requests are dropped exactly when there are two or more without a final response |
| `Closings.ExtractStalls` | internal/capture/engine.go:973-995 | an extraction stalls behind the first unreadable message it reaches, or has nothing left to do |
| `Segmentation.CloseEndsBody` | internal/capture/engine.go:1160-1195 | a response without a length is recorded at the close with its status, headers and every byte after its header as the body; without a reply when that header does not parse or is informational |
| `Exchanges.ConversationsArePaired` | internal/capture/engine.go:814-1091 | for readable requests and self-ending responses in any segments and interleaving, exactly the i-th request with the i-th non-informational response is emitted, for every i up to the shorter list |
| `Exchanges.ClientWire` | internal/capture/engine.go:973-995 | requests on the wire one after the other meet the framing condition and are parsed one by one |
| `Exchanges.ServerWire` | internal/capture/engine.go:997-1090 | the same for self-ending responses, informational ones skipped |
| `Conversations.WrittenArePaired` | internal/capture/engine.go:814-1091 | requests and responses written as text, in any segments and interleaving: the i-th record emitted is the verb, rooted path, header values but the last, and body of the i-th request, with the status, header values, body and size of the i-th response that is not informational, and no record more |
| `Conversations.AskReads` | internal/capture/engine.go:976-995 | a written request is framed whole and read to its parts |
| `Conversations.TellParses` | internal/capture/engine.go:1295-1346 | the reply made of a written response: none for an informational one, else its status, last header values, body and size |
| `Conversations.TellWaits` | internal/capture/engine.go:997-1014 | a written response waits for the close, or starts an event stream, exactly by its length, encoding, status and event-stream type as written |
| `Conversations.FieldMapLast` | internal/capture/engine.go:1331-1342 | a header map has the names of the lines, each with the value of its last line |
| `Conversations.LastReplies` | internal/capture/engine.go:1160-1195 | what a close makes of left-over bytes that are a written response: no reply for an informational one, else its record |
| `Conversations.WrittenCloses` | internal/capture/engine.go:1125-1197 | a written response that only the close ends gives one record with its status, headers and the bytes behind them |
| `Conversations.WrittenEventsStart` | internal/capture/engine.go:1015-1062 | a written event-stream header is saved at once as a record with an empty body, or its request is lost to the failed save |
| `Samples.PairComesOut` | internal/capture/engine.go:814-1091 | on a concrete exchange, a GET answered by a 204, every cutting emits the one pair, spelled out: the conditions of ConversationsArePaired can be met |
| `Samples.BareStalls` | internal/capture/engine.go:1399-1405 | a GET without header lines in front of one with them: two cuttings emit different logs before the close |
| `Samples.BareClosesAlike` | internal/capture/engine.go:1125-1197 | once the stream is closed they have emitted the same |
| `Samples.ThreeBaresDiffer` | internal/capture/engine.go:1131-1155 | three such GETs in front of one with a header line, never answered: whether the last gets a record when the stream is closed depends on the cutting |
| `Samples.EventStreamLoses` | internal/capture/engine.go:824-841 | a run in which a further request on an event stream is read and its close gives it no record |
| `Samples.CloseLosesUnsaved` | internal/capture/engine.go:1015-1048 | a run whose close is the first to read a request, meets a failing save and loses it |
| `Conservation.RunConserves` | internal/capture/engine.go:973-1197 | in every run of segments and closes, event streams included, the parsed requests are those recorded, each once and in order, then one lost to a failed save, then the pending one; one is lost for each save that failed, at most one in all, and the stream is then at its end |
| `Conservation.CloseFinishesAll` | internal/capture/engine.go:949-970 | after the close of a stream that was not an event stream every parsed request is recorded or was lost to a failed save, and none is held back |
| `Conservation.CloseLosesIff` | internal/capture/engine.go:949-970 | a close leaves a request waiting exactly on an event stream that has read another request since |
| `Conservation.CloseUnsavedIff` | internal/capture/engine.go:1015-1048 | a close loses a request to a failed save exactly when the stream is HTTP, no event stream yet, and the extraction the close starts with ends it |
| `Conservation.RunLosesIff` | internal/capture/engine.go:949-1197 | in every run, after a close each parsed request has its record, but for one that an event stream still waited for and one for each failed save; and exactly when the close itself meets a failed save |
| `Conservation.RunBounded` | internal/capture/engine.go:868-880 | in every run both buffers stay within the configured limit, or 4 MiB, and the event buffer within the configured one |
| `EventStreams.EventsSavedIff` | internal/capture/engine.go:824-835 | server bytes on an event stream join the buffered ones; all of them are saved exactly when they are 4096 or more and the record has an id |
| `EventStreams.EventsKept` | internal/capture/engine.go:814-841 | over any run of an event stream the buffer is the last bytes of all that the server has sent, however cut and mixed with client bytes |
| `EventStreams.EventsAtClose` | internal/capture/engine.go:897-914 | and the close saves exactly those |
| `Sni.FindSni` | internal/capture/engine.go:1619-1705 | the parser returns what the nested specification says and indexes no byte outside the data, whatever the bytes |
| `Sni.NameFound` | internal/capture/engine.go:1619-1705 | for every encoded ClientHello whose first server_name extension starts with a host_name, that name is returned (section 3 of RFC 6066) |
| `Sni.TruncatedHello` | internal/capture/engine.go:1619-1705 | a truncated ClientHello yields its own name or nothing |
| `Sni.PrefixKeepsOrLosesName` | internal/capture/engine.go:1619-1705 | on any bytes at all, a prefix yields the name of the whole or nothing |
| `TlsStreams.RejectedEnds` | internal/capture/engine.go:844-863 | first bytes that are not HTTP end the stream, whatever follows; a ClientHello leaves its name |
| `TlsStreams.HelloLeavesName` | internal/capture/engine.go:844-863 | a stream that opens with any encoded ClientHello of TLS 1.0 to 1.2 logs its server name and nothing else |
| `TlsStreams.CutHelloLeaves` | internal/capture/engine.go:844-863 | one that opens with a part of it logs that name or none |
| `TlsStreams.OthersLeaveNothing` | internal/capture/engine.go:1611-1616 | other bytes than HTTP and ClientHellos leave nothing |
| `FlowKey.KeyIdentifiesFlow` | internal/capture/engine.go:558-568 | two packets have one key exactly when they run between the same two endpoints, in either direction |
| `FlowKey.KeySymmetric` | internal/capture/engine.go:558-568 | both directions of a flow have one key |
| `FlowKey.WorkerSymmetric` | internal/capture/engine.go:296-328 | both directions of a flow go to one worker |
| `FlowTable.Assembler.EvictOldestIdleStream` | internal/capture/engine.go:715-733 | removes a flow of minimal activity time, whatever order the map is visited in; nothing only when the table is empty |
| `FlowTable.Assembler.Assemble` | internal/capture/engine.go:508-630 | one packet: find or open the flow, evict an oldest one exactly when a new flow meets a full table, never drop, feed, close; no other flow is touched |
| `FlowTable.Assembler.FlushOlderThan` | internal/capture/engine.go:655-677 | expiry closes exactly the idle and the non-HTTP flows, each once: the ended streams grow by their closings, in the order of the visit, and nothing else changes |
| `FlowTable.Assembler.FlushAllWithPending` | internal/capture/engine.go:679-699 | the end of a capture closes every flow once and empties the table |
| `FlowDirections.HandshakeDirects` | internal/capture/engine.go:605-622 | a flow opened by its client's SYN, or joined at the SYN-ACK: its stream is the payloads fed in order, those with the client as source as the client's, for different ports |
| `FlowDirections.KnownClient` | internal/capture/engine.go:605-622 | the same from any moment at which the client's port is known, and the activity time is that of the last payload |
| `FlowDirections.GuessDirects` | internal/capture/engine.go:541-556 | a flow joined later: every payload goes to the right side exactly when the ports let the first packet guess right, and otherwise every one to the wrong side |
| `FlowDirections.FlowFollowsItsPackets` | internal/capture/engine.go:508-630 | in every run a flow that stays in the table is what its own packets make of it, whatever the other flows do |
| `FlowRuns.EveryRequestAccounted` | internal/capture/engine.go:508-733 | in every run of packets, expiries and shutdowns the table stays within its bound, and each request parsed on any flow at any moment is, at every later one, recorded, lost to a failed save, waiting on a flow of the table, or lost on an ended event stream: as often as it was parsed |
| `FlowRuns.SavesLose` | internal/capture/engine.go:1024-1047 | on every stream there is or was, as many requests are lost to saves as saves have failed, and that is at most one |
| `FlowRuns.RunForgetsNothing` | internal/capture/engine.go:508-733 | the streams that have ended stay so, and no parse of a request on any flow, open or ended, is ever forgotten |
| `FlowRuns.TableLosesIff` | internal/capture/engine.go:655-733 | ending a flow at any moment of a run, by close, eviction or expiry, loses a request in exactly two cases: an event stream still waits for one, or the extraction with which an HTTP stream is closed meets a save that fails |
| `FlowRuns.RunSound` | internal/capture/engine.go:508-733 | in every run each flow accounts for its requests, and an ended stream holds one back only as an event stream |
| `MemRing.MemRingBuffer.constructor` | internal/capture/memring.go:49-70 | an empty ring of 512 MiB; its size is a power of two, at least the requested count and less than twice it |
| `MemRing.MemRingBuffer.PushRecord` | internal/capture/memring.go:75-123 | a push on the array ring is a push on the bounded drop-oldest queue: same residents, drops and answer |
| `MemRing.MemRingBuffer.EvictOldest` | internal/capture/memring.go:96-109 | eviction removes the oldest record and the ledger stays the sum of the residents, so the clamp never acts |
| `MemRing.EvictsSomething` | internal/capture/memring.go:91-96 | eviction never runs on an empty ring |
| `MemRing.PushDropsIff` | internal/capture/memring.go:43-123 | a push drops nothing exactly when the record, its three bodies and 2048 bytes, fits the slots and the ceiling; else it drops the record itself or the oldest |
| `MemRing.MemRingBuffer.PopBatch` | internal/capture/memring.go:127-154 | a batch is all residents in push order; the ring is then empty and its ledger zero |
| `MemRing.MemRingBuffer.Stop` | internal/capture/memring.go:176-181 | stopping changes nothing but the flag |
| `MemRing.RunOrdered` | internal/capture/memring.go:75-154 | over any run: batches and residents are a subsequence of the accepted pushes in order, every accepted record is in exactly one of drained, dropped or resident, and the residents are the most recent stored pushes, at most size-1 of them |
| `MemRing.LedgerBounded` | internal/capture/memring.go:75-123 | the resident bytes never exceed (size-1) times the ceiling |
| `MemRing.CeilingAfterPushIff` | internal/capture/memring.go:92-109 | one push keeps the ceiling exactly when the record fits once the oldest is gone |
| `MemRing.CeilingWhenShrinking` | internal/capture/memring.go:75-154 | the ceiling holds over any run in which no stored record is larger than one stored before it since the last batch |
| `MemRing.CeilingBroken` | internal/capture/memring.go:92-102 | two small records and then one of the largest size pass the ceiling: one eviction is not enough |
| `AsyncWriter.Flush.FlushAll` | internal/capture/memring.go:259-322 | chunks of 500 partition the batch in order; every record ends with the id its commit or its single save gave; the records with a positive id are broadcast |
| `AsyncWriter.PartitionHoldsEach` | internal/capture/memring.go:269-273 | each record stands in exactly one chunk, and no chunk is empty or longer than 500 |
| `AsyncWriter.SavedOnce` | internal/capture/memring.go:273-313 | a record is committed exactly when its chunk is or its single save succeeds, and never twice |
| `AsyncWriter.CommitsIff` | internal/capture/memring.go:276-302 | a chunk commits exactly when one of three attempts does and no stop cuts the wait after an earlier one |
| `AsyncWriter.AnnouncedOnce` | internal/capture/memring.go:315-320 | a record is broadcast exactly when the id that its chunk or its single save gave is positive, and never twice |
| `AsyncWriter.Flush.TryBatch` | internal/capture/memring.go:276-302 | up to three attempts, cut short by the stop signal |
| `AsyncWriter.PoolConserves` | internal/capture/memring.go:213-322 | in every interleaving of producers, workers and stop each accepted record is written, failed, dropped, in flight or resident, once; after the stop none is in flight or resident |
| `Interceptor.ResolveOnce` | internal/proxy/interceptor.go:152-177 | in every reachable state the queue holds at most 512 ids, at most one Resolve succeeds for an id, and its send is never blocked |
| `Interceptor.OutcomesAreSent` | internal/proxy/interceptor.go:304-341 | a handler that has returned is not in the queue; a decision it returns is the one its only successful resolver sent; a rejected one was never resolved |
| `Interceptor.AdmittedIff` | internal/proxy/interceptor.go:304-311 | a request is admitted while fewer than 512 wait and turned away only when 512 do |
| `Interceptor.HaltBinds` | internal/proxy/interceptor.go:162-175 | stopping the timer of a waiting handler leaves its resolver's decision as the only thing that can wake it |
| `Interceptor.HaltSettles` | internal/proxy/interceptor.go:159-175 | once a resolver has stopped the timer of a waiting handler, that handler returns its decision or waits, along every continuation |
| `Interceptor.DecisionKept` | internal/proxy/interceptor.go:329-335 | a decision sent before the handler looks for the last time is the one it returns, whatever happens in between |
| `Interceptor.TimeoutStands` | internal/proxy/interceptor.go:335-341 | after an empty second look the handler ends with the timeout |
| `Interceptor.SendDecides` | internal/proxy/interceptor.go:159-175 | at the moment of the send, where the handler stands decides: its decision is returned exactly if the handler has not yet looked for the last time |
| `Interceptor.LostDecision` | internal/proxy/interceptor.go:329-341 | a run in which Resolve succeeds and its decision is lost |
| `Interceptor.NoSendOnClosedLog` | internal/proxy/interceptor.go:105-113 | once Stop holds its lock, and ever after, nobody is about to send on the log |
| `Interceptor.NeverStranded` | internal/proxy/interceptor.go:325-341 | a waiting handler can always still be woken: by its timer, by the decision in its channel, or by a resolver on its way |
| `Interceptor.StepInv` | internal/proxy/interceptor.go:152-177 | every enabled step of every participant keeps the invariant of the protocol |
| `BatchWriter.EachInOnePlace` | internal/proxy/batch.go:54-168 | in every interleaving each request is in exactly one of held, queued, batched, saved, failed; onSave is called once for each saved one and never for a failed one |
| `BatchWriter.DrainFindsNothing` | internal/proxy/batch.go:85-105 | when the workers have exited the channel is empty, so the final drain finds nothing |
| `BatchWriter.StopSettlesAll` | internal/proxy/batch.go:85-105 | after Stop the channel is empty and every accepted request is saved and announced, or failed, or still in the hands of an enqueuer that saves it itself |
| `BatchWriter.WorkerBalances` | internal/proxy/batch.go:107-168 | each step of a worker, commits and fallback saves included, moves requests and calls without losing or doubling one |
| `BatchWriter.BatchesBounded` | internal/proxy/batch.go:147-152 | in every run a running worker's batch is below the batch size |
| `BatchWriter.ThreeAttempts` | internal/proxy/batch.go:121-144 | a batch is given up for single saves after exactly three failed commits |
| `BatchWriter.LeavesForGood` | internal/proxy/batch.go:155-164 | a worker that has seen the stop never runs again, and flushes only once it has found the channel empty |
| `ApiMapNode.APIMapNode.InsertPath` | internal/store/store.go:955-1019 | inserting a path changes the nodes in place as the function Insert changes the tree |
| `ApiMapNode.APIMapNode.AggregateNodeStats` | internal/store/store.go:831-866 | the bottom-up pass changes the nodes in place as the function Aggregate changes the tree |
| `ApiMapNode.GetApiMap` | internal/store/store.go:792-828 | the built object is the aggregated tree of all entries |
| `ApiMap.InsertWeight` | internal/store/store.go:955-1019 | along its path an insertion replaces the old own count by the new total; elsewhere no subtree changes |
| `ApiMap.CountIsSum` | internal/store/store.go:799-866 | for all entries in any order, a node's final count plus what was lost is the sum over all entries whose path has it as a prefix |
| `ApiMap.NothingLostIff` | internal/store/store.go:799-823 | counts are lost exactly when an entry with requests has no segment or is replaced by a later one with the same segments |
| `ApiMap.CountsIgnoreOrder` | internal/store/store.go:799-866 | for paths with distinct non-empty segment lists every final count is that sum, whatever the order of insertion |
| `ApiMap.AggregateAt` | internal/store/store.go:831-866 | aggregation gives every node the sum of the counts in its subtree |
| `ApiMap.MapHas` | internal/store/store.go:955-1019 | the map has the root and the prefixes of the paths and no other node |
| `ApiMap.MapUnique` | internal/store/store.go:963-981 | no two siblings share a name |
| `ApiMap.SplitPathSame` | internal/store/store.go:1033-1039 | two paths give one list of segments exactly when they differ only in slashes at their ends |
| `PathSegments.SplitPathOfJoined` | internal/store/store.go:1033-1039 | slash-free segments joined by slashes, the outer ones not empty, with any slashes around them, are split into just these |
| `PathSegments.SplitPathIs` | internal/store/store.go:1033-1039 | every path is such a path, for the segments it is split into |
| `PathSegments.TrimsEnds` | internal/store/store.go:1034 | slashes at the ends are cut off, and nothing else |
| `ApiMapLeaves.LeafIff` | internal/store/store.go:799-866 | in the finished map, for all entries in any order, a node is a leaf exactly when an entry ends there and none goes on from it |
| `ApiMapMethods.MethodsShownOnce` | internal/store/store.go:799-866 | in the finished map no path shows a method twice, when the database gives none twice for one path |
| `ApiMapMethods.MethodsAreSurvivors` | internal/store/store.go:799-866 | for all entries in any order, the methods shown at a path are those of the entries at or below it that no later entry replaces or passes through |
| `ApiMapMethods.MethodsIgnoreOrderIff` | internal/store/store.go:1008-1016 | for distinct paths the methods at every path of the finished map are the same for all orders exactly when every method of an entry, the root's aside, also occurs in an entry at or below it that no other entry goes on from |
| `ApiMapMethods.MethodsDependOnOrder` | internal/store/store.go:1008-1016 | in the finished map of "/a" and "/a/b" the first shows its own methods in one order and only those of the second in the other |
| `Utf8.TruncateStr` | internal/store/store.go:1205-1234 | for valid UTF-8 the longest valid prefix within the budget; for any bytes a prefix within it, at most 3 bytes short |
| `Utf8.PrefixValidIff` | internal/store/store.go:1205-1234 | in valid text the valid prefixes are those that do not end before a continuation byte (section 4 of RFC 3629) |
| `Utf8.ValidIff` | internal/store/store.go:1205-1234 | what the model takes for valid text are exactly the encodings of sequences of Unicode scalar values (section 3 of RFC 3629) |
| `LikeEscape.EscapeIsEach` | internal/store/store.go:1239-1244 | the three replacements in their order escape each character once |
| `LikeEscape.EscapedIsLiteral` | internal/store/store.go:1239-1244 | escaped text at the head of a LIKE pattern stands for itself |
| `LikeEscape.SearchFindsOccurrences` | internal/store/store.go:351-355 | a search pattern matches exactly the texts in which the searched string occurs, ASCII case aside |
| `StreamAssembler.StreamAssembler.FeedOpenAI` | internal/llm/parser.go:587-658 | one chunk, with its loops over tool deltas, changes the assembler as AddChunk says |
| `StreamAssembler.StreamAssembler.FeedTool` | internal/llm/parser.go:621-643 | an index in range extends the list and joins the fragment; any other changes nothing |
| `StreamAssembler.StreamAssembler.Feed` | internal/llm/parser.go:572-585 | the done mark and undecodable data change nothing; only the latter is refused |
| `StreamAssembler.StreamAssembler.Result` | internal/llm/parser.go:825-838 | the result is the accumulated state with the two token counts added up |
| `StreamAssembler.ToolsAreJoins` | internal/llm/parser.go:617-648 | for every list of deltas the arguments of call i are those of the fragments with index i, one behind the other, its id and name the last that one of them gives, and there are as many calls as the largest index in range asks for |
| `StreamAssembler.FeedAllKeeps` | internal/llm/parser.go:587-658 | over any chunks: first model, joined content, last finish reason, last usage, joined calls |
| `StreamAssembler.StreamMatchesWhole` | internal/llm/parser.go:415-459 | any fragmentation of a response with up to 65 tool calls, in any interleaving, assembles to what the one-shot parse gives, but for the total token count |
| `StreamAssembler.TotalsMatchIff` | internal/llm/parser.go:825-838 | the totals agree too exactly when the reported total is the sum of the other two |
| `StreamAssembler.InterleavingIgnored` | internal/llm/parser.go:617-648 | streams that agree call by call assemble to the same calls |
| `StreamAssembler.StreamAssembler.FeedAnthropic` | internal/llm/parser.go:660-752 | one decoded event changes the assembler as AddEvent says |
| `StreamAssembler.AnthropicMatchesWhole` | internal/llm/parser.go:461-503 | an Anthropic response sent block after block, cut anywhere, with its output count inside the last delta, assembles to what the one-shot parse gives |
| `StreamAssembler.OutputBesideDelta` | internal/llm/parser.go:732-750 | with the output count beside that delta, where the decoder does not look, all but the counts is as in the one-shot parse, and the counts are so exactly when the response counts no output |
| `BlockOrder.OwnInputIff` | internal/llm/parser.go:695-731 | for every sequence of events, its blocks in any order, each call ends with exactly the input sent for its own block if and only if no input arrives once the block of a later call has started |
| `BlockOrder.EarlyInputMayAgree` | internal/llm/parser.go:695-731 | input sent before its block has started can by chance make up for misplaced input, so the equivalence is about senders that start a block first |
| `BlockOrder.InterleavedBlocksMix` | internal/llm/parser.go:695-731 | two calls announced and then input for the first: the calls are not assembled as sent |
| `RateLimiter.RateLimiter.Allow` | internal/api/middleware.go:194-206 | one request opens a window or is counted in it |
| `RateLimiter.RateLimiter.Cleanup` | internal/api/middleware.go:208-225 | the sweep removes exactly the visitors whose window is over |
| `RateLimiter.SweepsChangeNothing` | internal/api/middleware.go:194-225 | runs that differ only in clean-ups and in other keys' requests give a key the same answers |
| `RateLimiter.WindowBound` | internal/api/middleware.go:194-206 | in any run in time order, clean-ups included, an interval no longer than the window admits at most 2*rate - 1 requests of a key |
| `RateLimiter.WindowCounts` | internal/api/middleware.go:194-206 | after a first request and any number more within its window, the next is allowed exactly when the window is over or the rate not used up |
| `RateLimiter.SweepForgets` | internal/api/middleware.go:208-225 | a clean-up leaves only keys that have made a request within the last window |
| `RateLimiter.BoundReached` | internal/api/middleware.go:194-206 | and that bound is reached |
| `RateLimiter.LogsEveryAdmission` | internal/api/middleware.go:194-206 | the admissions counted are exactly the allowed requests |
| `Pricing.LookupPricing` | internal/llm/pricing.go:168-189 | for every iteration order, the price of a longest key that names the model up to its end or a dash; nothing to pay when no key does |
| `Pricing.LookupUnique` | internal/llm/pricing.go:168-189 | with keys distinct up to case the answer does not depend on the order |
| `Pricing.OneKeyPrices` | internal/llm/pricing.go:168-189 | a table of one key prices the models that are that key up to case or go on with a dash behind it, and no others |
| `Pricing.LongestPriced` | internal/llm/pricing.go:168-189 | of several keys that name a model the longest is priced |
| `Pricing.OneValuedIff` | internal/llm/pricing.go:168-189 | it is independent of the order for all models exactly when keys that differ only in case have one price |

## Left out

- pcap, TLS interception, certificates, HTTP handlers, WebSockets, the SQL engine and the web UI: I/O and library behaviour.
- JSON decoding: the stream assembler starts from decoded chunks and events. What the decoder finds of an Anthropic `message_delta` is a parameter; `OutputBesideDelta` says what follows when it finds no count.
- Unicode beyond ASCII in header trimming and lower-casing: `strings.TrimSpace` and `strings.ToLower` also know other spaces and letters.
- URL and host formatting, process lookup, timestamps, durations and the other descriptive fields of a captured request.
- Pairing on event streams: body bytes that share a segment with the header stay behind in the server buffer; event streams are modelled and counted in `RunConserves`, but no pairing is claimed for them.
- Chunk trailers and the precedence of Transfer-Encoding over Content-Length: the code waits forever on the first and takes the length first.
- IP addresses as numbers: an endpoint carries the address text and its 32-bit fold; `IP.String` and `foldIPv6` are not part of this model.
- Goroutine scheduling, retry backoff, liveness and real-time delays.
- The emit buffer used when there is no ring (`flushEmitBuf`), the Gemini stream format, statistics, notes and status counts of the API map, the rule matcher and the configuration.
- `parseOpenAIResponse` on a response without choices: `StreamOf` asks for one choice, as the stream does.
- ApiMapNode.APIMapNode.InsertPath: models names, counts, the leaf flag, methods and children; the full path, the status counts and the note of a node are not part of this model.
- ApiMapNode.APIMapNode.AggregateNodeStats: does not model the aggregation of status counts, which adds them up as it does the counts.
- ApiMapNode.GetApiMap: leaves out what those two leave out.
- HttpSyntax.ParseResponseParts: says nothing of which headers are kept; that is MessageText.ResponseRoundTrip, for well-formed lines.
- BlockOrder.OwnInputIff: asks that a tool block starts once and before any of its input, as the protocol has it; EarlyInputMayAgree shows that the equivalence needs this.
- PoolConserves: treats a flush as settling pieces of at most 500 records with any outcomes; that a flush settles them as the store answered is FlushAll.
