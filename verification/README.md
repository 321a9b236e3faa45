# Probe wire formats, pipelines and counters

A Dafny model of the logic in an eBPF host probe that is hardest to trust by
reading: its hand-written wire parsers, the batching client that delivers
events, the packet mirroring pipeline, the kernel-side pairing of system calls,
the pod cache and the process rankings. `dafny verify dfyconfig.toml` checks
everything.

| file | modules | models |
|---|---|---|
| `Bytes.dfy` | `Bytes` | bytes, Go's 64-bit arithmetic, outcomes (value, error, panic) |
| `Resp.dfy` | `Resp` | the Redis protocol parser and the size function its array loop advances by |
| `Edge.dfy` | `EdgeClient`, `EdgeRuns` | the edge client, serialised and under every interleaving |
| `Hpack.dfy` | `HpackIntegers`, `HpackHeaders` | both HPACK integer decoders, and header blocks with the dynamic table |
| `Tls.dfy` | `Tls` | TLS records, ClientHello and its extensions |
| `VTap.dfy` | `PcapFormat`, `PcapWriting`, `VTap` | pcap files, their rotation, and the packet queue |
| `SyscallPairing.dfy` | `SyscallPairing` | write/writev entry and exit handlers over one shared map |
| `PodCache.dfy` | `PodKeys`, `PodCache` | cache keys and cache histories |
| `Analyzer.dfy` | `Ranking`, `SchedAnalyzer`, `MemLeakDetector` | top-N rankings and the counters they rank |

Conventions. A Go call is an `Outcome`: a value, an error or a panic. Loops and
objects that the source updates step by step are methods and classes; each is
proved equal to a function of its inputs, and the laws are proved of that
function. Goroutines and threads are state machines whose steps end where the
source takes or releases a lock, or touches an unguarded variable; a law "over
every interleaving" is proved for every sequence of enabled steps. What the
outside decides (a post, a file creation, a lookup, a clock reading, the order
in which Go walks a map) is a parameter or a nondeterministic choice.

Where the code does not do what its comments, or the standard it follows, say,
the model keeps the code and the proofs give the exact condition:

- A RESP null counts for 4 bytes although its encoding has 5, so a tree parses
  exactly when no null is followed by another element (`Resp.ParseEncode`).
- The backoff is 1s, 2s, 4s ... at most 60s only while the 64-bit product does
  not wrap: up to the 34th consecutive failure and on eight later ones
  (`EdgeClient.BackoffAgainstDocumentation`).
- The Go HPACK integer loop starts shifting at the prefix length, so it agrees
  with section 5.1 of RFC 7541 exactly up to the prefix mask
  (`HpackIntegers.DecodersAgreeIff`), and header strings come back exactly up
  to 127 octets (`HpackHeaders.StringRoundTrip`).
- Three parsers panic on some inputs, and exactly on those: the Redis parser
  where it reaches a length it cannot slice or allocate
  (`Resp.ParsePanicsIff`), the HPACK decoder where a string length wraps the
  64-bit bounds check (`HpackHeaders.BlockPanicsIff`), the ClientHello parser
  on an odd cipher suite length (`Tls.HelloPanicsIff`). A TLS record of more
  than 65530 payload bytes makes the record parser panic
  (`Tls.RecordRoundTrip`).
- A hello that is cut right before its extensions passes for one without any
  (`Tls.HelloCut`).
- From index 15 on the names of the HPACK static table stand five places too
  far compared with appendix A of RFC 7541 (`HpackHeaders.StaticNamesAgreeIff`).
  A literal whose name is an index is misread whatever follows it: its value, up
  to 127 octets, is taken for the name and what follows for the value
  (`HpackHeaders.IndexedNameMisread`).
- The retry counter is updated without a lock, so it stays near its limit in
  every interleaving exactly when there is at most one goroutine
  (`EdgeRuns.CounterBoundedIff`).
- The call that rotates a capture file does not store its packet
  (`PcapWriting.WriteStores`), and a file started in the same second as another
  replaces it (`PcapWriting.AllSurviveIff`). Its header leaves SnapLen at 0, which
  section 4 of draft-ietf-opsawg-pcap forbids, so a reader that holds files to
  their SnapLen accepts none (`PcapFormat.StrictReaderRejects`); LinkType is 0
  too, although the frames are Ethernet.
- A write to stdout that fails leaves its descriptor behind for the thread's
  next successful write (`SyscallPairing.InterleavedMisattributedIff`), and a full map
  makes threads affect each other (`SyscallPairing.IsolationIff`).
- Pids that are not Unicode scalar values share one cache key
  (`PodKeys.SharedKeyIff`), so the cache is faithful exactly for pids of
  distinct keys (`PodCache.FaithfulIff`).
- The pod enricher cannot be stopped a second time: Start keeps the closed
  channel, so it panics exactly when started, stopped, started and stopped again
  (`PodCache.RestartPanicsIff`).

## Model

| member | source | states |
|---|---|---|
| `Resp.IndexCrlfIsFirst` | pkg/protocol/redis.go:211-214 | the search finds a CRLF if there is one, and no earlier position starts one |
| `Resp.AtoiOfDecimal` | pkg/protocol/redis.go:226-229 | reading a printed length gives the length back, and it contains no CRLF |
| `Resp.AtoiNoShorter` | pkg/protocol/redis.go:226-229 | any accepted spelling of a length is at least as long as its printed form |
| `Resp.AtoiIff` | pkg/protocol/redis.go:226-229 | a length is read exactly from an optional sign, any zeros and the decimal form of a 64-bit number |
| `Resp.CalculateRespSize` | pkg/protocol/redis.go:282-304 | the recursive size loop computes the size function |
| `Resp.ParseRedisPacket` | pkg/protocol/redis.go:201-279 | the parser computes the parse function, panics included; every success is well formed and accounts for 3 to len(data) bytes |
| `Resp.ParseArrayElements` | pkg/protocol/redis.go:257-274 | the array loop computes the element function from any start |
| `Resp.ParseBounds` | pkg/protocol/redis.go:201-304 | on arbitrary bytes a success has 3 <= size <= len(data), also for lengths spelled `+5` or `005` |
| `Resp.ElemsBounds` | pkg/protocol/redis.go:257-274 | the loop reads the declared number of elements and their sizes never step past the buffer |
| `Resp.ParsePanicsIff` | pkg/protocol/redis.go:201-274 | on every input the parser panics if and only if it reaches a bad header: a bulk length below -1 or whose end overflows, or an array length below -1 or beyond what `make` can allocate, at the front or behind elements that parse |
| `Resp.ElemsPanicIff` | pkg/protocol/redis.go:257-274 | the same for the array loop from any offset |
| `Resp.PanicNeedsBadHeader` | pkg/protocol/redis.go:220-274 | so a panic implies such a header somewhere in the packet |
| `Resp.BadHeaderPanics` | pkg/protocol/redis.go:226-257 | and a packet starting with such a header does panic |
| `Resp.HugeArrayPanics` | pkg/protocol/redis.go:257 | every declared length beyond what `make` can allocate panics, whatever follows |
| `Resp.SizeLagsByNulls` | pkg/protocol/redis.go:282-304 | for every tree, computed size plus number of nulls equals encoded length |
| `Resp.ParseEncode` | pkg/protocol/redis.go:201-304 | a canonical encoding followed by anything parses to its tree if no null, at any depth, is followed by another element, and is rejected on a stray LF otherwise |
| `Resp.ParseEncodeAll` | pkg/protocol/redis.go:257-269 | the same for the element loop at any offset in a buffer |
| `Resp.LaggingElem` | pkg/protocol/redis.go:266-268 | an element holding a null is skipped one byte short |
| `Resp.RoundTrip` | pkg/protocol/redis.go:201-304 | null-free trees come back whole and their size is the length of their encoding |
| `Resp.PipelinedValues` | pkg/protocol/redis.go:266-268 | the value behind another starts where the size function says if and only if the first holds no null |
| `Resp.NullThenElementRejected` | pkg/protocol/redis.go:286-294 | a concrete array with a null first is rejected |
| `Resp.AcceptedIff` | pkg/protocol/redis.go:201-279 | on every input the parser returns a value if and only if the bytes are one of its forms, given as a grammar that does not mention the parser: which lengths, which bytes, a null exactly for a length of -1, elements placed by the size function |
| `Resp.RejectedIff` | pkg/protocol/redis.go:201-279 | on every input it reports an error if and only if that is the first thing wrong with the bytes |
| `Resp.ParseStable` | pkg/protocol/redis.go:201-279 | a packet that parses or panics does the same with more bytes behind it |
| `Resp.TruncatedFails` | pkg/protocol/redis.go:201-279 | every proper prefix of every encoding is rejected, nulls included |
| `Resp.ParseRedisCommand` | pkg/protocol/redis.go:307-345 | succeeds exactly on a non-empty array headed by a string; name, string arguments in order and raw bytes; for each way of not being one, the error; panics exactly when the packet parser does |
| `Resp.StringOfIff` | pkg/protocol/redis.go:328-342 | a value counts as a string if and only if it is a bulk string or one of the three line types |
| `Resp.CommandRoundTrip` | pkg/protocol/redis.go:307-345 | an encoded command comes back with all its words in order |
| `EdgeClient.EdgeClient.Retry` | internal/output/edge.go:113-130 | the new state after a failed post: given up from the 101st on, otherwise counted, slept and put back behind the batch |
| `EdgeClient.EdgeClient.Flush` | internal/output/edge.go:80-111 | the new state for each outcome of marshalling and posting, and when an error is returned |
| `EdgeClient.EdgeClient.WriteEvent` | internal/output/edge.go:59-69 | appends, flushes from 2000 events on, and reports an error exactly when that flush does not succeed |
| `EdgeClient.EdgeClient.WriteBatch` | internal/output/edge.go:72-77 | appends all and flushes, with an error exactly when there was something to send and it was not accepted |
| `EdgeClient.OpEffect` | internal/output/edge.go:59-130 | each call in terms of its events: they join the batch; below 2000 a single write does no more; otherwise all of it is delivered, given up, or put back with the counter and the sleep one further |
| `EdgeClient.RunAccounts` | internal/output/edge.go:59-130 | over every serialised history queued, delivered and discarded grow by exactly the events brought |
| `EdgeClient.DeliversInOrder` | internal/output/edge.go:59-130 | while nothing is discarded, delivered plus queued is what was written, in order, whatever failures came in between |
| `EdgeClient.SuccessKeepsBatchSmall` | internal/output/edge.go:59-77 | as long as posts succeed the batch stays below 2000 events |
| `EdgeClient.RunKeepsStreak` | internal/output/edge.go:80-130 | over every serialised history the counter is the number of consecutive failures modulo 101 and stays in 0..100, one batch in 101 is discarded, and the sleeps are those of that many failures |
| `EdgeClient.BackoffAgainstDocumentation` | internal/output/edge.go:120-125 | the sleep is the documented one if and only if the attempt is at most 34 or one of eight later ones |
| `EdgeClient.EarlySleeps` | internal/output/edge.go:114-125 | up to the retry limit the kth failure of a streak sleeps once, for attempt k |
| `EdgeClient.FirstSleepsDocumented` | internal/output/edge.go:120-125 | the first 34 sleeps of a streak of any length are min(2^(r-1), 60) seconds |
| `EdgeClient.BackoffWraps` | internal/output/edge.go:121-124 | attempts 35 to 55 sleep 60 s or, on the others, a negative time |
| `EdgeClient.BackoffVanishes` | internal/output/edge.go:121-124 | from attempt 56 on the sleep is zero |
| `EdgeRuns.StepMovesEvents` | internal/output/edge.go:59-130 | every step of every goroutine keeps each event's number of places, and adds one only for the events it accepts |
| `EdgeRuns.RunConserves` | internal/output/edge.go:59-130 | conservation is kept over any run from any conserving state, and nothing acknowledged or discarded is taken back |
| `EdgeRuns.EveryInterleavingConserves` | internal/output/edge.go:59-130 | at every state of every interleaving each accepted event is in exactly one place: batch, one goroutine, acknowledged or discarded |
| `EdgeRuns.AcknowledgedNeverPostedAgain` | internal/output/edge.go:86-111 | after an event is acknowledged no later state has it in the batch, in any goroutine's hands or discarded |
| `EdgeRuns.LostIncrement` | internal/output/edge.go:114-119 | a run from the start in which the failed posts of two goroutines count as one |
| `EdgeRuns.CounterUnbounded` | internal/output/edge.go:114-119 | two goroutines can take it anywhere: for every k some run from the start has counter k, however far past the limit of 100 |
| `EdgeRuns.CounterBoundedIff` | internal/output/edge.go:80-130 | over every run from the start with at most n goroutines the counter stays in 0..101 if and only if n is at most 1 |
| `EdgeRuns.FlushRunIsFlush` | internal/output/edge.go:80-130 | a flush that is not interrupted is a run of the machine that ends in the serialised client's state |
| `EdgeRuns.OpRunIsOp` | internal/output/edge.go:59-111 | a whole call that is not interrupted is a run of the machine that ends in the serialised client's state |
| `EdgeRuns.RetryStepsAreRetry` | internal/output/edge.go:113-130 | so is a retry, whatever others have queued since the batch was taken |
| `EdgeRuns.SleepsAlike` | internal/output/edge.go:120-125 | and the goroutine sleeps as long as the serialised client |
| `HpackIntegers.DecodeInteger` | pkg/protocol/http2.go:576-603 | the Go loop, in wrapping 64-bit arithmetic, returns mask + 2^prefix * groups modulo 2^64 and spans the RFC's octets |
| `HpackIntegers.AddGroups` | pkg/protocol/http2.go:588-602 | the group loop alone, for any start value and shift |
| `HpackIntegers.ContLengthIsFirst` | pkg/protocol/http2.go:590-600 | on arbitrary octets an integer goes on to the first octet without the high bit, or to the end |
| `HpackIntegers.ContValueDigits` | pkg/protocol/http2.go:594-595 | on arbitrary octets each one holds seven bits of the value, the first the lowest |
| `HpackIntegers.HpackDecodeInt` | bpf/http2_trace.bpf.c:230-253 | the C loop returns the RFC's value and length wherever its 32-bit arithmetic is defined |
| `HpackIntegers.FourOctetsFit` | bpf/http2_trace.bpf.c:239-249 | up to four continuation octets always fit 32 bits |
| `HpackIntegers.RfcRoundTrip` | bpf/http2_trace.bpf.c:230-253 | decoding inverts the encoding of section 5.1 of RFC 7541 for every prefix, value and suffix |
| `HpackIntegers.GoAgainstRfc` | pkg/protocol/http2.go:576-603 | on every input the Go value is the RFC's value, or mask + 2^prefix * (v - mask) modulo 2^64 |
| `HpackIntegers.DecodersAgreeIff` | pkg/protocol/http2.go:588-602 | on 64-bit values the Go result equals the RFC's if and only if the value is at most the mask |
| `HpackHeaders.ReadString` | pkg/protocol/http2.go:606-631 | decodeString, including the panic when the 64-bit length check wraps |
| `HpackHeaders.ReadLiteral` | pkg/protocol/http2.go:524-573 | both literal branches: name index skipped, name and value read |
| `HpackHeaders.HpackDecoder.DecodeHeaderField` | pkg/protocol/http2.go:504-573 | the field, and that only a whole incrementally indexed literal enters the table |
| `HpackHeaders.HpackDecoder.Decode` | pkg/protocol/http2.go:485-501 | the block's outcome, and the table extended by exactly the block's entries, also on error |
| `HpackHeaders.StringMeaning` | pkg/protocol/http2.go:606-631 | on every input a string is read exactly where a length and that many octets stand, returned as they are whatever the Huffman flag; which error otherwise |
| `HpackHeaders.FieldMeaning` | pkg/protocol/http2.go:504-573 | on every input: an indexed field by the high bit, otherwise a literal read exactly where two strings stand behind its index, entering the table by the next bit |
| `HpackHeaders.BlockMeaning` | pkg/protocol/http2.go:485-501 | on every block: each name has its last value, and the table gains the indexed fields that decode, also when a later field does not |
| `HpackHeaders.BlockFailsIff` | pkg/protocol/http2.go:489-494 | a block fails with exactly the error of the field at which decoding stops |
| `HpackHeaders.FieldsTileBlock` | pkg/protocol/http2.go:485-501 | fields span at least one octet each and stay in the block; decoding succeeds exactly when they cover it |
| `HpackHeaders.StringPanicsIff` | pkg/protocol/http2.go:606-631 | decodeString panics if and only if length and offset add up past the largest int |
| `HpackHeaders.BlockPanicsIff` | pkg/protocol/http2.go:485-631 | Decode panics if and only if a string length wraps so in a field it reaches, all fields before it decoding |
| `HpackHeaders.BlockPanics` | pkg/protocol/http2.go:485-631 | so a panic implies an integer of more than eight continuation octets |
| `HpackHeaders.NineOctetsPanic` | pkg/protocol/http2.go:606-631 | nine continuation octets are enough: a concrete literal makes Decode panic |
| `HpackHeaders.StringRoundTrip` | pkg/protocol/http2.go:606-631 | the octets of a string come back if and only if there are at most 127, with the Huffman flag set or clear |
| `HpackHeaders.HeaderRoundTrip` | pkg/protocol/http2.go:524-573 | a new-name literal (sections 6.2.1 to 6.2.3 of RFC 7541), with any Huffman flags, comes back if and only if both strings have at most 127 octets |
| `HpackHeaders.CollectIsLastWins` | pkg/protocol/http2.go:496 | the header map holds exactly the names of the list, each with its last value |
| `HpackHeaders.BlockRoundTrip` | pkg/protocol/http2.go:485-573 | a block of new-name literals decodes to its last-value-wins map and appends its incremental fields in order |
| `HpackHeaders.TableOnlyGrows` | pkg/protocol/http2.go:547 | over any sequence of calls on any bytes the table keeps its entries |
| `HpackHeaders.SessionRoundTrip` | pkg/protocol/http2.go:485-573 | over any sequence of header lists each call returns its own map and the table is the concatenation of all incremental fields |
| `HpackHeaders.StaticNamesAgreeIff` | pkg/protocol/http2.go:171-239 | the name table agrees with appendix A of RFC 7541 if and only if the index is at most 14; later names stand five places too far |
| `HpackHeaders.NoSuchName` | pkg/protocol/http2.go:517-521 | exactly the indices 1 to 66 have a name |
| `HpackHeaders.IndexedField` | pkg/protocol/http2.go:509-522 | a one-octet indexed field returns that table's name and no value, and leaves the dynamic table alone |
| `HpackHeaders.IndexedNameMisread` | pkg/protocol/http2.go:524-573 | a literal with an indexed name (sections 6.2.1 to 6.2.3 of RFC 7541) and a value of at most 127 octets decodes to that value as name and the next string behind it as value, or to the failure of reading that; it never spans its own encoding, and at the end of a block it is an error |
| `Tls.ParseTlsExtensions` | pkg/protocol/https.go:247-273 | the extension loop computes the scan |
| `Tls.ScanIsMaximal` | pkg/protocol/https.go:247-273 | re-serialising the scanned extensions gives a prefix of the input, and what is left holds no whole extension |
| `Tls.ScanRoundTrip` | pkg/protocol/https.go:247-273 | it is the only such parse: serialised extensions come back whatever stops the scan behind them |
| `Tls.ParseAlpnExtension` | pkg/protocol/https.go:303-332 | the protocol loop computes its scan |
| `Tls.ProtocolScanIsMaximal` | pkg/protocol/https.go:311-331 | re-serialising the scanned protocols gives a prefix, and the rest is empty or declares more than is left |
| `Tls.ProtocolScanRoundTrip` | pkg/protocol/https.go:311-331 | serialised protocol names (section 3.1 of RFC 7301) come back in order |
| `Tls.AlpnMeaning` | pkg/protocol/https.go:303-332 | on arbitrary bytes: behind two bytes, the names found and a rest that holds no whole name are all of the data |
| `Tls.ServerNameReadsFirst` | pkg/protocol/https.go:276-300 | of a serialised list (section 3 of RFC 6066) the first entry's name if it is a host_name, else nothing |
| `Tls.ServerNameIsFirstHostName` | pkg/protocol/https.go:276-300 | that is the list's first host_name if and only if no other type stands before a non-empty one |
| `Tls.ServerNameMeaning` | pkg/protocol/https.go:276-300 | on arbitrary bytes a name is found exactly where the first entry is a host_name that is all there |
| `Tls.ReadCipherSuites` | pkg/protocol/https.go:199-202 | the suite loop reads the 16-bit numbers in order |
| `Tls.ReadKnownExtensions` | pkg/protocol/https.go:233-240 | the loop takes name and protocols from the last extension of each type |
| `Tls.LastExtensionCounts` | pkg/protocol/https.go:233-240 | of several extensions of a type the last one counts, whatever its content |
| `Tls.ParseTlsClientHello` | pkg/protocol/https.go:169-244 | the parser computes the parse function: every error, the panic and all fields |
| `Tls.HelloPanicsIff` | pkg/protocol/https.go:193-202 | on every input it panics if and only if the suites are in the buffer and their declared length is odd |
| `Tls.HelloRoundTrip` | pkg/protocol/https.go:169-244 | every serialised hello body (section 4.1.2 of RFC 8446) comes back with all fields, server name and protocols, unless it is under 43 bytes |
| `Tls.HelloLongEnough` | pkg/protocol/https.go:170-172 | one suite, one compression method and an extensions block reach 43 bytes |
| `Tls.HelloMeaning` | pkg/protocol/https.go:169-244 | on a hello with vectors of any content: the panic on suites of odd length, otherwise every field and the extensions the scan finds; bytes behind them are ignored |
| `Tls.HelloCut` | pkg/protocol/https.go:170-228 | every proper prefix of such a hello is rejected with the error of the vector or length it ends in, except the one that ends right before the extensions |
| `Tls.RecordRoundTrip` | pkg/protocol/https.go:148-166 | a record comes back if its payload has at most 65530 bytes and makes the parser panic otherwise |
| `Tls.RecordCut` | pkg/protocol/https.go:149-161 | every proper prefix of a record is rejected, by its length or as incomplete |
| `PcapFormat.FileReadsBack` | internal/collector/vtap.go:112-136 | a pcap reader (sections 4 and 5 of draft-ietf-opsawg-pcap) that does not look at SnapLen and LinkType splits a file into exactly the packets appended, in order, with their timestamps and lengths |
| `PcapFormat.TimestampWithinMicro` | internal/collector/vtap.go:108-109 | seconds and microseconds are the packet's wall time cut to a microsecond, until the 32 bits run out |
| `PcapFormat.HeaderFields` | internal/collector/vtap.go:131-136 | the whole file header, field by field |
| `PcapFormat.StrictReaderRejects` | internal/collector/vtap.go:131-136 | every file announces a SnapLen of 0, so a reader that enforces it accepts none |
| `PcapWriting.WriteKeepsInvariant` | internal/collector/vtap.go:86-142 | every stored packet is less than `units` after its file's start, files are started at least `units` apart, and a closed file is never written to |
| `PcapWriting.WriteStores` | internal/collector/vtap.go:92-121 | a call that finds no file, or the latest one `units` old, stores nothing and starts a file if it can, failing otherwise; any other call stores exactly its own packet |
| `PcapWriting.PcapWriter.Write` | internal/collector/vtap.go:86-122 | the new state, whether an error is returned, and that the directory stays what the logged files make of it, a later file of the same second replacing an earlier one |
| `PcapWriting.PcapWriter.Rotate` | internal/collector/vtap.go:124-142 | a file named by the second, holding just the 24-byte header, replacing one of that name; or nothing changed when it cannot be created |
| `PcapWriting.FileHeld` | internal/collector/vtap.go:124-139 | a file is on disk, complete, if no later one was started in the same second |
| `PcapWriting.AllSurviveIff` | internal/collector/vtap.go:124-139 | every file ever started is still there if and only if no two were started in the same wall-clock second |
| `VTap.VTapCollector.ReceiveFrame` | internal/collector/vtap.go:420-427 | counts the packet and holds it |
| `VTap.VTapCollector.OfferFrame` | internal/collector/vtap.go:429-433 | queues the packet or, if the channel is full, counts it as dropped |
| `VTap.VTapCollector.ProcessFrame` | internal/collector/vtap.go:446-447 | takes the oldest packet and handles it |
| `VTap.VTapCollector.HandlePacket` | internal/collector/vtap.go:456-471 | writes, counts successful writes and forwards |
| `VTap.StepKeepsQueue` | internal/collector/vtap.go:413-454 | every step keeps: queued packets are handled oldest first, counters match, queue at most 100000 |
| `VTap.OfferDropsIff` | internal/collector/vtap.go:429-433 | a packet is dropped if and only if 100000 are waiting; otherwise it joins the end |
| `VTap.NothingLostBelowCapacity` | internal/collector/vtap.go:413-454 | over every run in which the queue never fills up nothing is dropped, and handled plus waiting is everything offered, in order |
| `VTap.EveryInterleavingAccounts` | internal/collector/vtap.go:413-471 | at every state of every interleaving: received = dropped + queued + handled + in hand; handled is in arrival order; a run begun with a writer keeps it and its interval; every stored packet is within the interval of its file's start; the packets stored over all files are an in-order subsequence of those handled; written = stored packets + files started; handled = written + creation failures |
| `VTap.SteadyClockKeepsFiles` | internal/collector/vtap.go:92-139 | with an interval of a second or more and a clock that is not set, no interleaving loses a capture file |
| `VTap.ShortUnitsLoseFile` | internal/collector/vtap.go:92-139 | with any shorter interval some run loses one |
| `SyscallPairing.LogCollector.TraceSysEnter` | bpf/log_collect.bpf.c:53-71 | the map after an entry, including the refused insertion when it is full |
| `SyscallPairing.LogCollector.TraceSysExit` | bpf/log_collect.bpf.c:75-120 | the map after an exit, and the event field by field: thread, process, stored descriptor, length |
| `SyscallPairing.RunInvariant` | bpf/log_collect.bpf.c:53-120 | over any trace the map holds at most a thread's latest recorded descriptor, and events never exceed recorded entries |
| `SyscallPairing.EventCarriesLatestFd` | bpf/log_collect.bpf.c:75-120 | in any interleaving an exit adds at most one event, with the thread, its process, the descriptor of its latest entry on descriptor 1 or 2, and the returned length |
| `SyscallPairing.Simulates` | bpf/log_collect.bpf.c:53-186 | with no more threads than map entries, a thread sees in any interleaving what it would see alone |
| `SyscallPairing.FullMapStarves` | bpf/log_collect.bpf.c:67-68 | a filled map makes a successful write of one more thread leave no event |
| `SyscallPairing.IsolationIff` | bpf/log_collect.bpf.c:53-186 | a set of threads is isolated in every interleaving if and only if it is no larger than the map |
| `SyscallPairing.Attribution` | bpf/log_collect.bpf.c:53-186 | call by call: a successful call adds one event exactly if the latest call on descriptor 1 or 2 is unanswered, with that call's descriptor, its own length, thread and process |
| `SyscallPairing.InterleavedReport` | bpf/log_collect.bpf.c:53-186 | inside any interleaving of no more threads than map entries, a thread's events are, field by field, those its own calls report |
| `SyscallPairing.MisattributedIff` | bpf/log_collect.bpf.c:75-120 | for a thread alone in the map, an event is charged to the wrong write if and only if the latest stdout/stderr write returned <= 0 and this is the first later successful one |
| `SyscallPairing.InterleavedMisattributedIff` | bpf/log_collect.bpf.c:53-186 | the same for any thread inside any interleaving of no more threads than map entries |
| `PodKeys.Utf8RoundTrip` | internal/k8s/enricher.go:176-178 | the key of a scalar value determines it |
| `PodKeys.KeyMeaning` | internal/k8s/enricher.go:176-178 | a key is the UTF-8 form of the pid if that is a scalar value, of U+FFFD otherwise |
| `PodKeys.SharedKeyIff` | internal/k8s/enricher.go:176-178 | two pids share a key if and only if they are equal or both print as U+FFFD |
| `PodCache.EventEnricher.Start` | internal/k8s/enricher.go:63-78 | running afterwards, with the stop channel as it was |
| `PodCache.EventEnricher.Stop` | internal/k8s/enricher.go:81-92 | no effect unless running; otherwise the channel is closed, or the panic if it already was |
| `PodCache.RestartPanicsIff` | internal/k8s/enricher.go:63-92 | a sequence of Start and Stop calls panics if and only if start, stop, start, stop occur in it in that order |
| `PodCache.EventEnricher.Enrich` | internal/k8s/enricher.go:95-136 | the pod used is the cached one or the looked-up one; which event fields it fills; what enters the cache |
| `PodCache.EventEnricher.InvalidateCache` | internal/k8s/enricher.go:192-198 | removes exactly the pid's key |
| `PodCache.LookupRunIsEnrich` | internal/k8s/enricher.go:107-116 | an uninterrupted miss, lookup and insertion of the history machine changes the cache as Enrich does |
| `PodCache.RunKeepsInvariant` | internal/k8s/enricher.go:95-206 | over any history of concurrent lookups, evictions and invalidations, what is cached was given for that pid since its last invalidation |
| `PodCache.FaithfulIff` | internal/k8s/enricher.go:95-206 | that holds of every history over a set of pids if and only if no two share a key |
| `PodCache.ScalarsDistinct` | internal/k8s/enricher.go:176-178 | scalar-value pids share no keys |
| `PodCache.StableLookupUnchanged` | internal/k8s/enricher.go:107-116 | with a stable lookup the pod used is the uncached answer |
| `PodCache.CachedPodIsUsed` | internal/k8s/enricher.go:107-116 | once looked up, a pod is used for its pid whatever the client would answer, over any run that does not evict or invalidate its key |
| `Ranking.SortDescending` | pkg/perf/analyzer.go:60-67 | the nested exchange loops leave a descending permutation, in place |
| `Ranking.TopOf` | pkg/perf/analyzer.go:55-72 | for every walk order of the map: a negative n panics, otherwise min(n, count) distinct entries in descending order, none left out larger |
| `Ranking.TopExceeds` | pkg/perf/analyzer.go:69-72 | a place in a ranking is no smaller than any process not ranked up to it |
| `SchedAnalyzer.SchedAnalyzer.RecordSample` | pkg/perf/analyzer.go:38-48 | the new map, with the 64-bit wrapping sum |
| `SchedAnalyzer.SchedAnalyzer.GetTopCpu` | pkg/perf/analyzer.go:51-73 | a ranking of the sampled processes by total, or the panic on a negative n |
| `SchedAnalyzer.TotalsAreSums` | pkg/perf/analyzer.go:38-80 | after every history: listed exactly if sampled since the last reset, first name, sum of samples since then modulo 2^64 |
| `SchedAnalyzer.TopRanksSums` | pkg/perf/analyzer.go:51-73 | after any history the ranking orders by those sums and leaves out no larger one |
| `MemLeakDetector.MemLeakDetector.RecordAlloc` | pkg/perf/analyzer.go:105-116 | the new map, with wrapping counters |
| `MemLeakDetector.MemLeakDetector.RecordFree` | pkg/perf/analyzer.go:119-127 | subtracts, or ignores a free of more than is counted |
| `MemLeakDetector.MemLeakDetector.GetTopAlloc` | pkg/perf/analyzer.go:130-151 | a ranking by outstanding bytes, or the panic on a negative n |
| `MemLeakDetector.CountedIsBalancePlusIgnored` | pkg/perf/analyzer.go:105-127 | absent overflow the counter is allocations minus frees plus the ignored frees, so it never under-reports |
| `MemLeakDetector.CountIsAllocations` | pkg/perf/analyzer.go:105-127 | after every history a process is listed exactly if it ever allocated, with the number of its allocations modulo 2^64 |
| `MemLeakDetector.ExactIff` | pkg/perf/analyzer.go:105-127 | it equals allocations minus frees if and only if the frees never ran ahead of the allocations |
| `MemLeakDetector.TopRanksBalances` | pkg/perf/analyzer.go:130-151 | where they did not, the ranking orders by what is really outstanding |

## Left out

- Memory exhaustion: a RESP array length that `make` accepts on a 64-bit platform is taken to be allocated. Buffers within two bytes of the largest int are excluded.
- `strings.ToUpper` of the command name is a function parameter; inline commands, command categories and key extraction are not modelled.
- HTTP posting, JSON and logging of the edge client appear only as outcomes; its metric and event constructors are not modelled. Stop and Close are one last flush.
- Go's memory model: an unguarded access is one atomic step, a data race has no other effect.
- EdgeRuns.AcknowledgedNeverPostedAgain: "acknowledged" is a 200 response; a batch the server stored before the response was lost is posted again, which the client cannot see.
- Huffman decoding, dynamic table lookups and eviction: the source has none. Indexed fields return a static name and no value, and a table size update (section 6.3 of RFC 7541) is read as a literal, as in the source.
- HpackIntegers.HpackDecodeInt: signed overflow and shifts of 32 or more are undefined in C and excluded by its precondition.
- HTTP/2 frame layouts, Kafka, Dubbo and MySQL parsers and the protocol sniffer: fixed-layout reads and branch tables that would add easy members.
- `GetTLSInfo` and `CheckHTTPOverTLS`: they pass the three handshake length bytes on as part of the hello body. Version and type names are constant data.
- Capture files are named by the number of the second, not by its local-time spelling, which repeats when daylight saving ends; expiry, Close, and failing writes to an open file are not modelled. Frames are at most 65536 bytes, as the receive buffer is.
- VTap.EveryInterleavingAccounts: counters are unbounded numbers; the forwarder's own buffer, Ethernet parsing and the loops' stop signal are not modelled.
- Kubernetes informers and the LRU policy: a lookup parameter and arbitrary evictions. The event fields Enrich never touches are absent.
- Log event timestamps, command names and buffer contents; the ring buffer is a list of events.
- Rankings return values, so a record that later changes under its pointer is not captured; user, system and timestamp fields that the source never sets are absent.
- Block I/O statistics, host metrics, BPF loading, collector lifecycles, ClickHouse output, cloud metadata, kernel detection and configuration.
