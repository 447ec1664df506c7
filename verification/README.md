# Zaman verification

Zaman captures SIP over UDP and HEP3 over UDP, TCP and TLS, turns each message into a JSON record, queues the
records to one batching database writer, and keeps per-call state and a daily rollup that its reports read.
This project models that path and the formats around it in Dafny and proves what they promise.
`dafny verify dfyconfig.toml` checks everything.

Where the program changes state step by step the model does too: the collector, the database, the database writer, the
login limiter and the ring buffer are classes, the packet builders write arrays in place, and the loops of decoders,
drains, walkers and printers are methods with invariants. Each such method is proved against a function, and the laws
are proved about that function.

- `HepStream`, `HepCodec`, `HepLaws`, `HepEncoder`, `HepCollector`, `HepEndToEnd`: stream framing (the Go and the Mako
  extractor), the chunk decoder, the Python encoder, counters and sessions, and delivery from sender to collector.
- `Sip`, `SipLaws`, `SipStart`, `SipParsed`, `SipMethods`, `SipEcho`, `SipEchoLaws`, `SipEchoExact`, `SipReply`: parser,
  redactor and echo reply.
- `Json`, `Record`, `RecordMaker`, `HepRecord`: the record as JSON, printed and read back, and from a sender's packet.
- `CallState`, `Database`, `DatabaseLaws`, `Writer`: the upsert, the transaction, the rollup, the writer's loop.
- `Pipeline`, `PipelineSafety`, `Reopening`, `ReopenedCall`, `EndToEnd`, `WireToRows`: all workers, the writer and
  delete requests as a transition system over atomic steps, from any database an earlier process left, and what its
  tables say of the messages that went in.
- `Checksum`, `Endpoints`, `PcapWriter`, `PcapLaws`, `PcapReader`, `PcapExport`, `PcapCaptured`: both PCAP exporters.
- `Mos`, `Rtcp`, `RtcpLaws`: the E-model over reals and the RTCP walker.
- `Token`, `Limiter`, `LimiterSafety`, `Ring`: session tokens, the login limiter, the ring of recent records.
- `Bytes`, `Text`, `Sequences`: integer fields, decimal text, splitting, trimming, case, permutations.

What turned out not to hold as one might expect, with its exact condition:

- Permuting HEP3 chunks of distinct types can change the result, because the IPv4 and IPv6 address chunks share a field
  (`HepLaws.AddressFamiliesClash`); a packet may be reordered at will exactly when each two of its chunks write
  different fields or the same value (`HepLaws.ReorderedPacket`).
- The Mako remainder is not split-safe: it can lose a frame exactly when the bytes behind the last frame are six or more,
  hold no magic and end in the start of one (`HepStream.MakoSplitSafe`, `HepStream.FrameLost`).
- In a batch, each record is stored beside its own JSON exactly when no unparseable string stands before a parseable one
  (`DatabaseLaws.PairingExact`); in batches of printed records it always is (`RecordMaker.PrintedBatch`).
- A bar in a method name shifts report_daily columns (`Database.CutOfKey`, `DatabaseLaws.BarMovesColumn`); totals stay right.
- Retention and delete requests remove call rows, so a closed call whose row is gone can come back open
  (`ReopenedCall.ClosedCallReopens`, `PipelineSafety.ReopensAfterExpiry`); a row always tells of what was stored since it
  was last removed (`PipelineSafety.ReachableClosedForm`).
- `first_ts_ms` is the first processed timestamp, the same for every order of the records exactly when all records of the
  call have one timestamp (`CallState.FirstSeenDependsOnOrder`).
- Redaction appends a newline on every pass, and loses a start line that is itself a credential
  (`SipLaws.RedactTwice`, `SipLaws.RedactionPreservesParse`).
- The echo reply can differ from the parsed request, because the echo loop also reads the first line as a header
  (`SipEchoExact.ReplyCarriesCall`, `SipEchoExact.FromLine`); with the default list of echoed methods it
  never does (`SipEchoExact.DefaultEchoCarriesCall`).
- A file reads back exactly when every payload is at most 65,507 bytes and every timestamp fits (`PcapExport.ReadBack`); the
  collector accepts longer payloads (`PcapCaptured.LongCapture`).
- The exporters differ on port 0 and on every IPv6 endpoint, and on no other that the collector prints
  (`Endpoints.ExportersAgree`); neither file holds an IPv6 address
  (`PcapExport.CapturedIpv6`, `PcapExport.PyIpv6`), and when the files read alike is `PcapExport.ExportersCarryTheSame`.
- MOS before rounding is not monotone: just above R = 6.5 it is below one (`Mos.MosOrderExact`, `Mos.MosDips`).
- An RTCP header whose count exceeds its length makes the walker read on into the next packet (`RtcpLaws.BlocksInside`,
  `RtcpLaws.BlockBeyondPacket`).
- A role with a colon does not survive a session token (`Token.FreshToken`).

## Model

| member | source | states |
|---|---|---|
| HepStream.DrainSplit | core-go/hep.go:453-475 | Draining a prefix of a byte stream and later the kept bytes with the rest behind them dispatches the frames of one drain of the whole, in order, and keeps the same bytes: reads may cut the stream anywhere |
| HepStream.RestIsStuck | core-go/hep.go:453-475 | What is carried over is at most 65,534 bytes and a second drain of it dispatches nothing |
| HepStream.DrainedAreFrames | core-go/hep.go:463-472 | Only byte strings that start with the magic and are as long as their length field says are dispatched, and frames and remainder together are no longer than the input |
| HepStream.ResyncFindsAll | core-go/hep.go:456-461 | Frames sent back to back, with noise between them in which no magic starts, are all dispatched, exactly and in order |
| HepStream.MakoDrain | core/hep.mko:335-367 | The jump-to-magic drain dispatches on any buffer up to 2,097,152 bytes the frame sequence of the skip-one-byte drain, counts each bad length once, and keeps exactly the bytes of its specification; a larger buffer it empties |
| HepStream.MakoSplitSafe | core/hep.mko:343-349 | Whatever is read next, the Mako remainder leads to the same frames as the Go remainder if and only if what the buffer holds behind its last frame or bad length, after any jump, is not a magic-free tail of six or more bytes that ends in the first bytes of a magic |
| HepStream.RestsByTail | core/hep.mko:335-367 | What each drain keeps, by that tail: a magic-free tail of six or more bytes is thrown away by the Mako drain and cut to its last five bytes by the Go one; any other is kept whole by the Mako drain |
| HepStream.MakoRefines | core/hep.mko:335-367 | Jumping dispatches the same frames as skipping byte by byte, past garbage and bad lengths, on every buffer |
| HepStream.FrameLost | core/hep.mko:345-347 | A concrete read ending in an H after five zero bytes: the frame it begins is dispatched after the Go drain and lost after the Mako one |
| HepStream.TornMagicLost | core/hep.mko:345-347 | A frame whose magic is torn by the end of a read is lost by the Mako drain and found by the Go one |
| HepStream.SkipTo | core/hep.mko:343-350 | Jumping to the first magic dispatches what skipping byte by byte dispatches |
| HepCodec.HepDecode | core-go/hep.go:80-171 | The in-place decoder returns the fields obtained by applying, in order, the chunks its length field covers, and no fields for a short or foreign packet |
| HepCodec.DecodeChunks | core-go/hep.go:94-166 | The chunk loop applies exactly the chunks up to the first truncated or undersized one |
| HepLaws.ApplyFrame | core-go/hep.go:105-163 | A chunk changes no field but its own, and what it writes there does not depend on the earlier value |
| HepLaws.Numbers | core-go/hep.go:105-163 | Ports, times and node numbers are a chunk's bytes, most significant first; a node number may have two bytes |
| HepLaws.CommuteIff | core-go/hep.go:105-163 | Two chunks may be exchanged from every state exactly when they write different fields or the same value |
| HepLaws.PermutationInvariant | core-go/hep.go:95-166 | Every permutation of a chunk list gives the same fields if and only if each two of its chunks write different fields or the same value |
| HepLaws.ReorderedPacket | core-go/hep.go:80-171 | Every packet whose chunks are a permutation decodes like the given one if and only if each two chunks write different fields or the same value |
| HepLaws.IgnoredChunk | core-go/hep.go:105-165 | Inserting a chunk of unknown type, or one too short for its type, anywhere in a packet changes nothing |
| HepLaws.AddressFamiliesClash | core-go/hep.go:112-127 | Distinct chunk types are not enough for reordering: types 3 and 5 write one source address field, and their order decides the result |
| HepLaws.DecodePacket | core-go/hep.go:80-171 | Decoding an encoded packet, whatever bytes follow it, applies exactly its chunks in order, and the packet is one frame |
| HepLaws.ChunksOfBody | scripts/send_hep.py:20-21 | The chunk reader undoes the chunk writer for every chunk list that fits |
| HepEncoder.EncodeHep3 | scripts/send_hep.py:24-64 | The encoder's bytes are the packet of its chunk list with the optional chunks left out when empty; None where packing raises |
| HepEncoder.EncodesExactly | scripts/send_hep.py:24-64 | There is a packet exactly for messages whose addresses can be read, whose numbers fit 16, 32 or 8 bits, and whose fields come to at most 65,535 bytes with 93 fixed ones |
| HepEncoder.RoundTrip | scripts/send_hep.py:42-64 | Every packet the encoder emits decodes to the addresses, ports, times, protocol type, node id, password, correlation id, node name and payload it was given |
| HepEncoder.RoundTripText | core-go/hep.go:112-162 | With an address reader that reads the printed quads, an address comes back as given if and only if it is a canonical dotted quad, and the node name if and only if it has no trailing NUL |
| HepCollector.RunBalanced | core-go/hep.go:211-286 | After any packets: each was counted as an error or in the total, and the total equals the sum over transports, the sum of rejected and accepted, and accepted equals the sum over protocol types; a refused session is outside this balance, it adds to the denied count alone |
| HepCollector.StampsPositive | core-go/hep.go:253-257 | With a positive clock every accepted message has a positive timestamp |
| HepCollector.HandleAllAppend | core-go/hep.go:211-286 | Handling packets in two portions is handling them at once |
| HepCollector.Collector.HandlePacket | core-go/hep.go:211-286 | One packet moves counters and accepted list as specified: error, password failure, denied peer or accepted |
| HepEndToEnd.AcceptedExactly | core-go/hep.go:186-209 | Over any packets exactly the well-formed messages with the collector's password are accepted, all when it has none, and nothing when it has a list of which no entry begins the peer's host |
| HepEndToEnd.RefusedSession | core-go/hep.go:359-367 | A session of a peer that no entry begins is counted as denied and nothing else comes of it |
| HepEndToEnd.PasswordDelivers | core-go/hep.go:359-475 | Of a sender's stream, however it is cut, exactly the messages with the collector's password are accepted |
| HepCollector.Collector.DrainHepFrames | core-go/hep.go:453-475 | The drain loop hands exactly the frames of the buffer to the handler in order and returns the remainder |
| HepCollector.AfterRead | core-go/hep.go:378-389 | One more read brings the session to the state of one drain of everything received, with at most 65,534 bytes kept |
| HepCollector.Collector.TakeRead | core-go/hep.go:378-397 | One turn of the session loop keeps that state; the 2 MB cap is never reached and the drain at end of file dispatches nothing |
| HepCollector.Collector.TcpSession | core-go/hep.go:359-398 | For every byte stream and every way of cutting it into reads the session ends in the state of one drain of the whole stream, unless the peer is refused, which is counted |
| HepCollector.Collector.TlsSession | core-go/hep.go:435-448 | The TLS session drains the first 2 MB read once, drops it on error or when empty, and only counts a refused peer |
| HepCollector.TlsCapCutsTail | core-go/hep.go:443-447 | Reading at most 2 MB of a TLS stream dispatches a prefix of the frames the whole stream holds |
| HepEndToEnd.CountersTell | core-go/hep.go:211-251 | Over any packets each counter grows by exactly the packets it is named for: malformed, wrong password, refused peer, per transport, per protocol type |
| HepEndToEnd.AcceptsInOrder | core-go/hep.go:211-286 | The accepted list grows by exactly the admitted packets in dispatch order |
| HepEndToEnd.StreamDelivers | core-go/hep.go:359-475 | Messages encoded by the sender, concatenated with noise in which no magic starts and cut into reads in any way, are accepted with every field as sent, in order, if they pass password and peer checks |
| CallState.SummarySnoc | core-go/db.go:330-339 | Applying the upsert to the summary of a call's records gives the summary of those records and the new one |
| CallState.ClosedForm | core-go/db.go:321-391 | After any record sequence a row exists exactly for the calls seen and equals its declarative summary: first record's endpoints and first timestamp, maximum timestamp, first stamped answer, first numbered INVITE, last record's method, status and id |
| CallState.RowMeaning | core-go/db.go:330-339 | open is 0 exactly if some BYE or CANCEL was seen, answered is 1 exactly if some 2xx INVITE response was seen, last_ts is the maximum timestamp |
| CallState.SetOnceMeaning | core-go/db.go:337-338 | With positive ids and timestamps, invite_id is the first INVITE request's id and answer_ts the first answer's timestamp, and 0 exactly if there is none |
| CallState.RunEvolves | core-go/db.go:330-339 | Over any records a row never reopens, never retracts an answer, never changes a set invite_id or answer_ts, first_ts or endpoints, its last_ts never falls, and other keys are untouched |
| CallState.RowsStayOk | core-go/db.go:322-339 | Flags stay 0 or 1 and answer_ts never exceeds last_ts |
| CallState.OrderIndependent | core-go/db.go:330-339 | Any permutation of the same records leads to the same calls with the same open, answered and last_ts |
| CallState.FirstSeenDependsOnOrder | core-go/db.go:322-331 | first_ts is of the first record processed: it is the same for every permutation of the records if and only if all records of the call have one timestamp |
| Database.InsertRecords | core-go/db.go:348-398 | The record loop inserts captures and upserts calls as one-at-a-time insertion does and accumulates each rollup key's count; after a failed statement nothing counts |
| Database.RollUp | core-go/db.go:400-410 | Adding the accumulated counts key by key, in any map order, gives the rollup of one-at-a-time insertion |
| Database.Db.DbBatchInsert | core-go/db.go:299-413 | A batch is inserted wholly, exactly as one record at a time, or not at all; it commits when every statement succeeds |
| DatabaseLaws.ConsecutiveIds | core-go/db.go:299-320 | Rows get consecutive ids, one for each record |
| Database.CutOfKey | core-go/db.go:395-402 | Cutting a rollup key at its bars gives back day, method and transport if and only if the method has no bar |
| Database.CutKeyInjective | core-go/db.go:401-408 | Different rollup keys never fall into one cell |
| Database.RollAllCells | core-go/db.go:394-408 | Each report_daily cell grows by exactly the number of records with its key |
| Database.BulkIsOneByOne | core-go/db.go:400-410 | A batch's counts, added at its end, leave the table of one-at-a-time counting |
| DatabaseLaws.BatchIndependence | core-go/db.go:299-413 | However a stream of rows is cut into committed batches, captures, call_state and report_daily end identical to one row at a time |
| DatabaseLaws.PairingExact | core-go/db.go:350-353 | Each record is stored beside its own JSON text if and only if no unparseable string stands before a parseable one in the batch |
| DatabaseLaws.RollupTotal | core-go/db.go:394-408 | The report_daily counts grow by the number of captures with a non-empty method |
| DatabaseLaws.RollupOrder | core-go/db.go:394-408 | report_daily is the same for every permutation of the same records |
| DatabaseLaws.CellCounts | core-go/db.go:394-408 | Without bars in methods a cell counts exactly the records of its day, method and transport |
| DatabaseLaws.DayColumn | core-go/main.go:272-275 | The day column of a time is d exactly if it lies in UTC day d, from 86,400,000 d ms on; truncation makes day 0 reach back a day before 1970 |
| DatabaseLaws.SameDay | core-go/main.go:272-275 | Two times share a day column exactly if the same number of whole days precede them |
| DatabaseLaws.DayCellCounts | core-go/db.go:394-408 | Without bars the cell of day, method and transport counts exactly the records of that UTC day, method and transport |
| DatabaseLaws.BarMovesColumn | core-go/db.go:402-408 | A bar in a method moves part of it into the transport column |
| DatabaseLaws.InsertRowsKeeps | core-go/db.go:299-413 | Inserting rows keeps call_state and report_daily the functions of captures they must be, and ids positive, distinct and increasing |
| Pipeline.EveryRun | core-go/db.go:230-296 | From every database in order, empty or filled by earlier processes, in every interleaving of workers, writer and delete requests: MsgsTotal = DBDrop + queued + batched + DBOk + DBErr + workers between count and send; queue at most 4096, batch at most 99 between writer steps; the rows ever stored are those at the start and then those of the committed flushes in queue order; DBOk counts the rows the process added; captures are a part of the rows ever stored, with increasing ids, and report_daily counts all of those |
| Pipeline.EveryRunCanGoOn | core-go/db.go:28-121 | Wherever a process stops or is killed, the next one begins on a database in order |
| Pipeline.LogGrows | core-go/db.go:299-413 | The log of rows ever stored only grows |
| Pipeline.NothingDeleted | core-go/api.go:500-522 | Without a delete request for captures the table holds all that was ever stored |
| Pipeline.StepKeepsInv | core-go/db.go:246-296 | Every atomic step of a worker, the writer, retention or a delete request keeps that invariant |
| Pipeline.SendStep | core-go/hep.go:279-285 | The non-blocking send queues the record behind all others or counts a drop, never both |
| Pipeline.DropsAreFull | core-go/hep.go:279-285 | Along any run DBDrop grows exactly by the messages sent while the channel holds 4096 strings, and every other record sent is queued, in order |
| Pipeline.NothingDropped | core-go/hep.go:279-285 | Where no message is sent into a full channel nothing is dropped and the records of all messages sent are queued, in order |
| Pipeline.CountersOfRun | core-go/hep.go:211-251 | Along any run MsgsTotal, Requests, Responses and each method counter grow exactly by the messages they are named for |
| Pipeline.FlushBegins | core-go/db.go:246-295 | A flush begins at the hundredth string of a batch, at a tick with something batched and before the writer stops, and otherwise not |
| Pipeline.FlushEnds | core-go/db.go:246-295 | A flush ends with the batch empty and the writer waiting again, or stopped when it was begun to stop |
| Pipeline.WorkersNeverBlock | core-go/hep.go:279-285 | Whatever the queue holds, every worker has a step to take |
| Pipeline.WriterNeverBlocks | core-go/db.go:268-295 | and so has the writer until it stops |
| Pipeline.DeletesExactly | core-go/api.go:500-522 | A delete request takes away exactly the captures or calls it names and nothing from the rollup |
| Pipeline.ParseStep | core-go/db.go:250-259 | Each string of a flush is either parsed into the next record or counted as an error |
| PipelineSafety.StepEvolves | core-go/db.go:274-279 | A step moves a call's row only forwards; the row goes exactly when retention or a delete request removes it |
| PipelineSafety.RunSafety | core-go/db.go:230-339 | Over any run, from any state in which the invariant holds, a row that nothing removes never reopens when closed, never retracts an answer, and keeps its set-once columns |
| PipelineSafety.KeepingSurvives | core-go/db.go:274-279 | Without retention and without a delete request for calls no row ever disappears |
| PipelineSafety.ReachableClosedForm | core-go/db.go:230-413 | In every reachable state, from every database and with retention and delete requests at any time, a call's row is exactly the summary of its captures stored since the row was last removed, by earlier processes too, and it is there exactly if there are any |
| PipelineSafety.NextProcess | core-go/db.go:28-121 | What the row tells of at the end of one process it tells of at the start of the next, so this holds over any number of processes |
| PipelineSafety.ClosedSinceRemoval | core-go/db.go:230-391 | In every reachable state a call in the table is closed exactly if a BYE or CANCEL of it was stored since its row was last removed, and answered exactly if a 2xx to an INVITE was |
| PipelineSafety.SetOnceSinceRemoval | core-go/db.go:337-338 | In every reachable state with nonzero timestamps answer_ts is that of the first answer and invite_id the id of the first INVITE request stored since the row was last removed, and 0 exactly if there is none |
| Reopening.ClosedThenOpen | core-go/db.go:268-339 | For any two records of a call, the first a BYE or CANCEL and the second neither, and any parser there is a run from the start that closes the call, lets retention delete its row and then holds the call open |
| Reopening.MessagesReopen | core-go/db.go:268-339 | For any two messages of one Call-ID and agent, the first a BYE or CANCEL and the second neither, there is such a run in which workers print just their two records |
| ReopenedCall.ClosedCallReopens | core-go/db.go:268-339 | For every URI and Call-ID the BYE and INVITE texts themselves give such a run |
| PipelineSafety.ReopensAfterExpiry | core-go/db.go:277-278 | A call closed before is closed after its next record if and only if its row outlived the cutoff or that record closes it again |
| PipelineSafety.StoppedMeansCounted | core-go/db.go:270-273 | When the writer has stopped nothing is batched, every string taken was flushed and counted, and DBOk rows were added to those at the start |
| Writer.DbWriter.Flush | core-go/db.go:246-269 | A flush parses the batch, commits all parsed records or none, adds the batch's size to DBOk plus DBErr and empties the batch |
| Writer.DbWriter.Turn | core-go/db.go:268-295 | One turn of the select keeps: taken strings are flushed or batched in order, flushed ones counted, committed ones in the table; a retention tick removes exactly the calls last seen before its cutoff and nothing else, and any other turn leaves the tables alone or writes one batch |
| Writer.DbWriter.Loop | core-go/db.go:268-296 | From start to cancellation every string received is flushed exactly once, in order, the table holds the rows of the committed flushes, and the tables went through one such turn per event |
| Writer.HistoryTells | core-go/db.go:268-296 | Through any such turns a call's row is the summary of its captures stored since a tick with a cutoff above its last time removed it |
| Writer.HistoryRollup | core-go/db.go:268-296 | and report_daily stays the rollup of the captures |
| Checksum.Fold | web/static/app.js:91-92 | The fold loop with 32-bit operators terminates with the value of its specification on every number |
| Checksum.FoldJsIsCarry | web/static/app.js:91-92 | Below 2^31 the 32-bit operators are exact and the loop computes the end-around carry |
| Checksum.CarryOnes | web/static/app.js:91-93 | A positive sum carries to 0xFFFF exactly when it is a multiple of 65535 |
| Checksum.ComplementCompletes | web/static/app.js:91-93 | A field holding the complement of the carried sum of the rest makes the whole sum to 0xFFFF |
| PcapWriter.BuildPacket | web/static/app.js:65-119 | Writing the packet in place, field by field, yields Ethernet, IPv4 and UDP headers and payload as laid out, both checksums in their places |
| PcapWriter.WriteIpHeader | web/static/app.js:79-93 | The IPv4 header is written behind the Ethernet header with the checksum patched in last |
| PcapWriter.SumPayload | web/static/app.js:111-113 | The payload loop adds up 16-bit words, an odd last byte shifted up |
| PcapWriter.PushAddress | web/static/app.js:88-89 | At most four address numbers are stored, each modulo 256, zeros for missing ones |
| PcapLaws.IpChecksumVerifies | web/static/app.js:90-93 | The ones' complement sum over the IPv4 header is 0xFFFF for every length, identification and address (RFC 791 section 3.1, RFC 1071 section 1) |
| PcapLaws.UdpSumBound | web/static/app.js:101-113 | For payloads up to 65,507 bytes and 16-bit ports the accumulator stays at or below 2,147,057,392, so below 2^31 |
| PcapLaws.UdpChecksumVerifies | web/static/app.js:101-116 | Pseudo-header, UDP header and data sum to 0xFFFF for every payload up to 65,507 bytes, odd lengths included, and the stored checksum is never zero (RFC 768) |
| PcapLaws.PacketVerifies | web/static/app.js:65-119 | Both checksums of a whole packet verify on its own bytes, read at their offsets |
| PcapLaws.PacketBytes | web/static/app.js:65-119 | The fixed bytes of a packet, and where its lengths, identification and payload lie |
| PcapLaws.OversizedPorts | web/static/app.js:108-109 | For all ports and all sums, 2^31 and more included, the UDP checksum verifies if and only if what the port fields lose equals, modulo 65535, what the 32-bit operators lose |
| PcapLaws.LengthFieldsExact | web/static/app.js:67-68 | The IPv4 length field says the length if and only if the payload has at most 65,507 bytes |
| Endpoints.ParseEpOfEndpoint | web/static/app.js:134-140 | An endpoint printed for any host without ']' and without a leading '[' parses back to its host and port, port 0 of a host without a colon becoming 5060 |
| Endpoints.DefaultPorts | scripts/gen_pcap.py:14-21 | Without a port, or with a word for one, both exporters take 5060; without a colon Python has no address either |
| Endpoints.BrokenBracket | web/static/app.js:134-137 | A bracket without an end leaves the text as it is, with port 5060 |
| Endpoints.HexPort | web/static/app.js:138-140 | A port behind 0x is read in hexadecimal |
| Endpoints.Ipv6Endpoint | core-go/hep.go:173-183 | Every endpoint printed for decoded IPv6 address bytes parses back to its address and port, port 0 included |
| Endpoints.Ipv6Groups | core-go/hep.go:173-183 | The eight groups of a printed IPv6 address stand for its sixteen bytes, two by two |
| Endpoints.Ipv4Endpoint | web/static/app.js:134-140 | Every endpoint printed for decoded IPv4 address bytes parses back to its address and port, port 0 becoming 5060 |
| Endpoints.IpBytesOfQuad | web/static/app.js:141-144 | The four numbers of a canonical dotted quad are its bytes |
| Endpoints.ExportersAgree | scripts/gen_pcap.py:14-21 | Of all endpoints printed for a host without brackets the two exporters read exactly those alike that have no IPv6 address and a nonzero port |
| Endpoints.ExportersSplitIpv6 | scripts/gen_pcap.py:14-21 | On every endpoint printed for a decoded IPv6 address they differ: the browser strips the brackets, Python keeps them |
| Endpoints.IpBytesOfIpv6 | web/static/app.js:141-144 | Of an IPv6 address the browser keeps one number, the decimal digits at the front of its first group |
| PcapReader.CutOfRecord | web/static/app.js:121-130 | Cutting a record off a file undoes writing it: times, frame and rest come back |
| PcapReader.HeaderBytes | web/static/app.js:47-55 | The file header byte for byte: magic, version 2.4, no time zone, snap length 65535, link type |
| PcapExport.SortIsStable | web/static/app.js:57 | The sort orders by timestamp, loses and adds nothing, and keeps the order within one timestamp |
| PcapExport.BuildPcap | web/static/app.js:47-133 | The export loop yields the global header and one record per message with a payload, in sorted order, numbered from 1 |
| PcapExport.ReadBack | web/static/app.js:47-133 | For every list of messages: a pcap reader on the file recovers exactly those with a payload, in stable time order, with address, port, millisecond timestamp and payload, if and only if each of them has a payload of at most 65,507 bytes and a timestamp whose seconds fit 32 bits |
| PcapExport.NegativeTime | web/static/app.js:121-126 | The microseconds written for a time before 1970 are taken from 2^32 |
| PcapExport.RecordsStep | web/static/app.js:67-130 | One message further: its record reads back and the rest with it exactly when its payload and timestamp fit |
| PcapCaptured.PayloadCaptured | core-go/hep.go:80-171 | A packet with nothing but a payload of up to 65,523 bytes is accepted with the payload whole |
| PcapCaptured.LongCapture | web/static/app.js:67-130 | Such a payload of 65,507 bytes or more without credentials is stored one newline longer, and no file it is exported to reads back |
| PcapCaptured.LetterPayload | core-go/hep.go:80-171 | 65,507 times the letter x is such a payload |
| PcapExport.CapturedAddresses | web/static/app.js:64-66 | For IPv4 endpoints the collector printed, the recovered address and port are the captured ones, port 0 aside |
| PcapExport.NoEndpoints | web/static/app.js:64-66 | A message without endpoints is exported as 0.0.0.0, port 5060, on both sides |
| PcapExport.CapturedIpv6 | web/static/app.js:134-144 | For IPv6 endpoints the collector printed, the recovered ports are the captured ones, and of each address only the decimal digits at its front are left, modulo 256, with zeros behind |
| PcapExport.PyIpv6 | scripts/gen_pcap.py:8-21 | As no address in brackets can be read, the Python exporter gives an IPv6 endpoint its port and 0.0.0.0: the address of the other file exactly when those digits are a multiple of 256 |
| PcapExport.BuildPcapPy | scripts/gen_pcap.py:23-46 | The Python exporter's loop yields its file, or fails where packing a number raises |
| PcapExport.PyPacketBytes | scripts/gen_pcap.py:29-42 | The fixed bytes of a packet of the Python exporter, and where its lengths and payload lie |
| PcapExport.ExportersCarryTheSame | scripts/gen_pcap.py:23-46 | On messages with endpoints the collector printed, both files read as the same datagrams if and only if each message with a payload fits its fields and each endpoint is IPv4 with a nonzero port, or IPv6 with front digits that are a multiple of 256 |
| PcapExport.FilesAlikeExact | scripts/gen_pcap.py:23-46 | For every list of messages the Python exporter writes a file that reads as the browser's if and only if it packs each message with a payload, and to the same datagram |
| Sip.ParseSip | core-go/sip.go:26-88 | The parser sets the start line's fields and then, line by line, the last Call-ID, From, To and CSeq before the first blank line |
| SipMethods.SecondWord | core-go/sip.go:76-80 | The field taken from a CSeq is the second of its words, whatever white space stands before, between and behind them |
| SipMethods.NoSecondWord | core-go/sip.go:76-80 | and nothing where there is no second word |
| SipMethods.CaseFolds | core-go/sip.go:44-48 | Upper case leaves no small letter, lower case no capital, and other characters stay |
| SipMethods.ResponseMethod | core-go/sip.go:33-80 | A response whose only CSeq is a number and a method has that method, in upper case |
| SipMethods.AnswerRecord | core-go/sip.go:145-160 | The record of a 2xx response whose CSeq names INVITE is an answer, stored as 2 INVITE |
| SipMethods.HeadersRead | core-go/sip.go:60-84 | Call-ID, From, To and CSeq of a request are the values of the last header with their long or compact name, in any case |
| SipMethods.KnownNames | core-go/sip.go:66-81 | The names that are read: call-id and i, from and f, to and t, via and v, cseq |
| Sip.ReadHeaderLines | core-go/sip.go:52-84 | The header loop stops at the first blank line and skips lines without a name |
| Sip.RedactSip | core-go/sip.go:91-104 | The redactor writes every line that is not a credential, each with a newline |
| Sip.CollectHeaders | core-go/sip.go:223-247 | The echo loop keeps the first Via with a value and the last of the other four |
| Sip.BuildEcho | core-go/sip.go:215-271 | The reply is printed line by line in fixed order; nothing for a response |
| SipParsed.MessageParses | core-go/sip.go:26-88 | A message of start line, header lines, blank line and any body parses to what the start line says and the last Call-ID, From, To and CSeq of its head, long or compact names in any case |
| SipParsed.RequestParses | core-go/sip.go:38-48 | A request line gives kind, upper-case method and URI, whatever the headers and body |
| SipParsed.ResponseParses | core-go/sip.go:33-80 | A status line gives kind and code, and the method is the first one a CSeq of the head names |
| SipStart.ScanReads | core-go/sip.go:34-37 | The status is scanned behind white space, with or without a sign, up to the first character that is no digit, and dropped beyond 64 bits |
| SipParsed.ReadsMethod | core-go/sip.go:74-80 | Headers never change kind, status, URI or a method already known |
| SipLaws.RedactedLines | core-go/sip.go:91-104 | All other lines survive in order and no credential line remains |
| SipMethods.RedactsCredentials | core-go/sip.go:91-104 | No line of the redacted text begins, trimmed and in lower case, with authorization: or proxy-authorization:, and every other line is kept in order |
| SipLaws.RedactTwice | core-go/sip.go:91-104 | A second redaction removes nothing more and appends one newline: redaction is not idempotent |
| SipLaws.CredentialIsNoField | core-go/sip.go:94-98 | A credential line always reads as a header the parser ignores |
| SipLaws.RedactionPreservesParse | core-go/sip.go:91-104 | Parsing the redacted message yields the same fields as parsing the original if and only if the first line is not itself a credential header |
| SipEcho.HeaderLine | core-go/sip.go:60-65 | A printed header line reads back as its name and its trimmed value |
| SipEcho.CopiedAreClean | core-go/sip.go:232-246 | What the echo loop copies is trimmed and on one line, so it cannot add lines to the reply |
| SipEchoLaws.ReplyReadBack | core-go/sip.go:249-270 | Parsing the reply to any request gives a response, status 401 exactly for REGISTER and 200 otherwise, with the copied Call-ID, From, To and CSeq and the method its CSeq names (RFC 3261 section 8.2.6.2) |
| SipReply.ReplyStands | core-go/sip.go:249-270 | The reply line by line: 401 for REGISTER and 200 otherwise, the first Via with a value, the last From, To, Call-ID and CSeq, Contact, Server, Allow for OPTIONS, Content-Length 0 |
| SipReply.EchoListed | core-go/sip.go:198-212 | A method in the list of those echoed is echoed, in any case, wherever it stands and whatever white space is around it |
| SipEchoExact.ReplyCarriesCall | core-go/sip.go:223-247 | The reply carries the request's own Call-ID, From, To and CSeq if and only if the first line, which only the echo loop reads as a header, does no harm |
| SipEchoExact.FirstLineEchoed | core-go/sip.go:223-247 | A request of one line that also reads as a From header: the parser finds no From, the reply carries one |
| SipEchoExact.FromLine | core-go/sip.go:223-247 | Such requests are From: and any trimmed value of 14 or more characters, 20 bytes in all, so long enough to be handled |
| SipEchoExact.MethodKeepsCall | core-go/sip.go:215-247 | The reply carries the call of every request whose method is not empty, has no colon and no white space at its ends, and is no name of a header the echo knows |
| SipEchoExact.DefaultEchoCarriesCall | core-go/sip.go:198-212 | With the default list of echoed methods, OPTIONS, every reply carries the call of its request |
| Json.Jesc | core-go/main.go:246-270 | The escaper returns the concatenation of its characters' escapes |
| Json.CharBack | core-go/main.go:249-267 | What the escaper writes for any character reads back as that character under RFC 8259 section 7, and cannot end the string |
| Json.StringBack | core-go/main.go:246-270 | Every escaped string reads back whole, whatever follows its closing quote |
| Json.PrintedParses | core-go/sip.go:164-192 | The JSON reader undoes the printer for every list of string and integer members, in order |
| Record.RecordRoundTrip | core-go/db.go:207-227 | For every record with 64-bit numbers the text printed for it parses to exactly that record, omitted members included |
| Record.TagsAreKeys | core-go/db.go:207-227 | The names the worker prints are the names of the reader's struct tags |
| RecordMaker.MakeRecord | core-go/sip.go:145-195 | The worker's text, built member by member, is the text of the record meant for the message: redacted payload, prefixed method, optional members only when they say something |
| RecordMaker.PrefixUndone | core-go/db.go:366-369 | Cutting the stored method at its first space gives the parsed method back, prefixed or not |
| SipMethods.ClassShown | core-go/sip.go:155-161 | A response with a status of three digits and a method is stored as the first digit, a space and the method |
| SipMethods.NoClassShown | core-go/sip.go:155-161 | A request, or a response without a method, is stored with its method as it is |
| RecordMaker.SizeInBytes | core-go/sip.go:192 | The size is the number of bytes of the text in UTF-8 |
| RecordMaker.FlagsOfMessage | core-go/db.go:366-387 | The writer's answer, close and INVITE flags of a record are those of the message it was made from |
| RecordMaker.MessageRoundTrip | core-go/sip.go:145-195 | For every message and metadata in range, the writer reads the record that was meant |
| RecordMaker.PrintedBatch | core-go/db.go:250-259 | A batch of printed records parses without an error and each record is stored beside its own text |
| HepRecord.MakeHepRecord | core-go/hep.go:253-277 | The handler prints the record of an accepted packet with its endpoints, label, protocol name, timestamp, node and correlation id |
| HepRecord.SenderToRecord | core-go/hep.go:211-286 | From sender to database: the record the writer reads back has the endpoints, time, node, correlation id and payload of the message the sender encoded |
| HepRecord.SenderLabels | core-go/hep.go:46-75 | The record's agent is the node's name, else hep- and its number, its transport the listener it came by, its proto the name of its protocol type |
| HepRecord.SenderEndpoints | web/static/app.js:64-65 | The exporter reads the sender's address and port back from that record, port 0 aside |
| EndToEnd.CapturesTrue | core-go/db.go:350-358 | Whatever the interleaving and the deletions, if workers print records each capture the process stores has its own text beside it, and earlier ones keep theirs |
| EndToEnd.QueuedAreStored | core-go/db.go:246-296 | The converse: what a process adds is, once each and in queue order, every string of its committed flushes with the record it parses to; with no failed flush and nothing waiting, every string ever queued |
| EndToEnd.CapturesAreMessages | core-go/db.go:230-413 | In every interleaving, on a database of such rows, each row of captures is the record of some message, its text parses back to it, and its flags are the message's |
| EndToEnd.CallTellsItsMessages | core-go/db.go:321-391 | In every run a call is answered exactly if one of its messages stored since its row was last removed is a 2xx to an INVITE, and closed exactly if one is a BYE or CANCEL |
| WireToRows.StreamsToRows | core-go/hep.go:211-475 | From TCP bytes to table rows: for any number of sessions, each a stream of encoded messages with noise cut into reads in any way, any database at the start and any interleaving, what the process stores is in queue order exactly the strings of its committed flushes, and each row is the record of one of the senders' messages beside its own text |
| WireToRows.SentFields | core-go/hep.go:211-475 | For addresses and names as the decoder prints them, such a row has the sender's endpoints, time, node, correlation id, payload and labels |
| Mos.CubicRises | core-go/qos.go:24-28 | The cubic is non-decreasing on [6.5, 100] |
| Mos.TenthsMonotone | core-go/qos.go:20-29 | MOS times ten, rounded, is at least 10 and non-decreasing in R over [0, 100] |
| Mos.MosDips | core-go/qos.go:22-28 | The failing case as jitter: 866 ms score 1.0, 865 ms score less |
| Mos.MosOrderExact | core-go/qos.go:20-28 | Before rounding a smaller R has no larger MOS if and only if it is not the case that it is below 6.5 and the larger one is from 6.5 on with R^2 - 160 R + 1000 > 0 |
| Mos.MosOrder | core-go/qos.go:11-29 | MOS times ten lies in [10, 44] for jitter and loss of zero or more and is non-increasing in each (ITU-T G.107 Annex B) |
| Mos.LossAgainstJitter | core-go/qos.go:11-41 | One per cent of loss costs exactly as much as 25 ms of jitter |
| Mos.FactorIs | core-go/qos.go:32-41 | The R factor is 93 less a tenth of the jitter and five halves of the loss, rounded down, and zero below one |
| Mos.Scores | core-go/qos.go:11-29 | MOS times ten is 44 without jitter and loss, 42 at 30 ms and 2 per cent, 35 at 10 per cent, 17 at 100 ms and 20 per cent |
| Mos.FactorOrder | core-go/qos.go:32-41 | The R factor lies in [0, 100] and is non-increasing in jitter and loss |
| Rtcp.ParseQoS | core-go/qos.go:44-119 | On arbitrary bytes the walker terminates in bounds and reports the blocks its specification finds, with maximum jitter and loss and minimum MOS; nothing below eight bytes or without blocks |
| Rtcp.TakeBlocks | core-go/qos.go:75-106 | The inner loop takes up to the header's count of whole 24-byte blocks and keeps the running extremes |
| Rtcp.WalkAll | core-go/qos.go:55-109 | The outer loop visits packet after packet by their length fields until the version or the bytes run out |
| RtcpLaws.CompoundReport | core-go/qos.go:44-119 | For every well-formed compound packet the report is over exactly the blocks of its sender and receiver reports, in order (RFC 3550 sections 6.1, 6.4.1, 6.4.2) |
| RtcpLaws.BlockReads | core-go/qos.go:76-97 | Of a report block laid out as in RFC 3550 section 6.4.1 the walker takes source, loss in per cent and jitter in milliseconds, and their MOS |
| RtcpLaws.PacketReads | core-go/qos.go:61-109 | At a member's start the walker takes its blocks, or none for another type, and goes on right behind it |
| RtcpLaws.ReportIsWorst | core-go/qos.go:111-118 | On any payload the summary's R factor, worst MOS and the MOS of its two maxima never exceed any block's, and some block has the worst MOS |
| RtcpLaws.FactorOfWorst | core-go/qos.go:111-118 | The summary's jitter and loss are the greatest of any block, and its R factor is that of the two together |
| RtcpLaws.BlocksInside | core-go/qos.go:69-75 | Blocks taken for a packet stay within its own length if and only if its count says no more than fits, or the payload ends first |
| RtcpLaws.BlockBeyondPacket | core-go/qos.go:69-75 | A sender report with count 1 and length 0 before 48 or more bytes: its block is read from beyond its own end |
| Token.FreshToken | web/main.go:549-591 | A fresh token verifies exactly up to its expiry, for every user name, colons included, and returns the same id, name and role if and only if the role has no colon |
| Token.AcceptedIsSigned | web/main.go:558-591 | An accepted token carries the keyed hash of its own payload, and its expiry is not past |
| Token.PayloadParts | web/main.go:551 | The payload's colon-separated parts are the id, the name's parts, the role's parts and the expiry |
| Token.BeyondLimits | web/main.go:575-590 | A number of more than 64 bits is read as the nearest that has 64 |
| Limiter.Compact | web/main.go:637-642 | Compaction in the backing array leaves exactly the times from the cutoff on, in order |
| Limiter.RateLimiter.Allow | web/main.go:634-646 | The answer after pruning is whether fewer than five failures of the full history lie in the last 60 seconds, and no other address changes |
| Limiter.RateLimiter.Record | web/main.go:628-632 | A failure is appended to its address's list and history |
| LimiterSafety.StepKeeps | web/main.go:102-120 | Each handler step keeps the bound on every window |
| LimiterSafety.WindowBound | web/main.go:102-120 | With at most k handlers between check and record, no 60-second window ever holds more than 4 + k failures of an address |
| LimiterSafety.BoundIsMet | web/main.go:102-120 | For every k of one or more there is a run with exactly 4 + k failures in one window |
| LimiterSafety.Login | web/main.go:102-120 | The handler refuses exactly when the full history has five failures in the window, and records a failed password |
| LimiterSafety.Serve | web/main.go:102-120 | Attempts handled one at a time: each is allowed exactly when fewer than five earlier failures of its address lie in the last 60 seconds, and no 60-second window holds more than five failures of any address |
| Ring.Recent.Push | core-go/main.go:191-196 | The record is stored over the oldest of 512 |
| Ring.Recent.List | core-go/main.go:198-213 | The list is the newest records, newest first, as many as asked for and still held |

## Left out

- Sockets, TLS handshakes, deadlines, HTTP routing, files, environment, GeoIP, webhooks and probes: only the buffer, counter and queue logic of the workers is modelled.
- PostgreSQL itself: a transaction is all rows or none, a failed statement makes the rest of it fail; tables are a sequence and two maps, and types, constraints and 32-bit INTEGER columns are not modelled.
- Partition handling (core-go/db.go:137-204): what the writer does with call_state rows on its retention tick is modelled, table partitions are not.
- Writer.DbWriter.Loop: between two turns of the select the database is the writer's alone; delete requests beside it are steps of the transition system only.
- The UDP listeners' minimum sizes (20 bytes for SIP, 10 for HEP3) and deadlines: the model starts with a packet that is handled.
- Choosing among ready channels in the writer's select: any order of events is allowed; the counters Status2xx and Status4xx5xx and the ring push are not steps of the pipeline.
- HMAC, password hashing, base64 and inet_aton are function parameters; where a law needs base64 it asks for its round trip, or for text without quotes, backslashes and control characters, on the one text concerned.
- Mos.MosOrder: computed over reals, so floating-point rounding near a half is not modelled.
- Rtcp.ParseQoS: the report is a value; printing its numbers with one decimal is not modelled.
- JavaScript numbers beyond 2^53 in the PCAP writer; sorting is a specification function for the library's stable sort.
- Sip.ParseSip: strings are sequences of Unicode characters, trimming and letter case are ASCII, and bytes that are not well-formed UTF-8 are not modelled; SDP extraction (core-go/sip.go:107-142) is left out.
- Record.RecordRoundTrip: the reader accepts flat objects of strings and integers with the exact member names; Go's decoder also accepts nested and other values under unknown names and ignores the case of names.
- Token.FreshToken: characters stand for bytes, and cookies and the login page are left out.
- Limiter.RateLimiter.Allow: the backing array is compacted in place, but the limiter holds each address's list as a value, so sharing of one backing array between two slices is not modelled; the limiter's lock is the atomicity of its methods.
- Ring.Recent.List: a negative limit is excluded, as no caller passes one.
- HepCollector.Collector.TcpSession: context cancellation between two reads ends a session early; the theorem is for sessions that run until a read reports an error or the input ends.
- Report queries, caches, the API, the dashboard, the codec table and the Mako database code.
