# Mesh firmware: verified model

A Dafny model of three connected state machines of the DECT NR+ mesh firmware and of its two serial ends,
with proofs of what they keep. To verify: `dafny verify dfyconfig.toml`.

**Large-data transport** (`src/large_data.c` over `src/psram.c`). Blobs of up to 200 KB travel hop by hop:
sensor, anchors, gateway, host. The model has the page allocator over external RAM, the receiver with its
bitmap, counter and staged CRC-32, the window-of-four sender driven by a count of acknowledgements, and the
re-cutting between 472-byte serial chunks and 180-byte radio chunks at both ends. A step relation over any
number of devices and a set of all packets ever sent gives a channel that loses, repeats, reorders and
misdelivers packets but does not alter them.

**Reliability layer** (`src/timeout.c`, `src/tracker.c`). Non-blocking timers with an eight-bit retry counter,
and the 128-entry retransmission pool whose payloads live in external RAM with a CRC-16.

**Persistent topology** (`src/storage.c`, parts of `src/mesh.c` and `src/product_info.c`). Three RAM tables
and their EEPROM image, the sorted infrastructure table, and the hop number and parent derived from it.

**Framing** (`src/slm_at_main.c`, `tools/sensor_sim.py`). Quoted fields, hexadecimal numbers and payloads,
line splitting, and the AT#LD and AT#LDINIT builders and parsers.

| files | contents |
|---|---|
| `Basics`, `Pieces`, `Bitmaps`, `Folding`, `Crc32Ieee`, `Crc16CcittFalse` | integer widths, cutting a blob into pieces, the bitmap, CRC-32 and CRC-16 |
| `Psram` | the external RAM driver, a class over a byte array |
| `LargeDataTypes`, `LargeDataStore`, `LargeDataReceiver`, `LargeDataSender`, `LargeDataTicks`, `LargeDataSerial` | the transport's step functions and what each step keeps |
| `LargeDataMachine`, `LargeDataHost` | the same operations as the firmware runs them: a class over arrays and the host conversation on top of it, every method tied to its step function |
| `LargeDataContent`, `LargeDataStaging`, `LargeDataGateway` | which bytes of which blob memory holds; staging and hand-over at the serial ends |
| `LargeDataNetwork`, `LargeDataWindows`, `LargeDataDelivery`, `HostReader` | any number of devices and hops: what slots hold, the senders' windows, ordered delivery and what the host puts together, over whole runs |
| `LargeDataAnyTraffic` | one device under any traffic at all: books, page map, `ld_busy`, frozen blobs |
| `Timeout`, `TrackerPool`, `TrackerRetries`, `TrackerMachine` | timers, the pool's step functions and runs, its callbacks over runs, the pool as a class over arrays |
| `Eeprom`, `InfraOrder`, `StorageTables`, `StorageRuns`, `StorageMachine`, `Topology` | images and records, the sort, the tables and runs, runs with reboots, the tables as a class over arrays, hop numbers and parent chains |
| `AtHex`, `AtFields`, `AtLines`, `LdLines` | the text lines |

## How the code is read

- State changes are modelled twice. A step function on values says what an operation does, invariants and
  runs are proved about it, and a method of a class with the firmware's loops and arrays is proved to compute
  exactly that function of the old state.
- Failing hardware enters as parameters: `good` is the number of SPI bursts or EEPROM writes that succeed,
  `fault` the number of the checksum read that fails, `ok` and `readOk` whether one access succeeds. All
  results hold for every value unless they say otherwise. An initialised PSRAM is a precondition of the
  methods built on it; `Psram.Read`, `Psram.Write` and `Psram.Clear` cover the uninitialised one.
- The clock is a sequence of monotone readings, two per look at a timer.
- Role, device id, serial number, mesh lookup and the outcome of a serial write are parameters.
- `find_sender_slot` returns an `int` that callers put in a `uint8_t` and then compare with zero
  (`src/large_data.c:742-743`, `:866-867`). It is read as meant: no matching sender means return.
- There is one sender slot (`src/large_data.h:19`), so the sender is a single record.

Where the code and its own comments disagree the model follows the code: 32 chunks a page (the README says 20),
payload slots of 202 bytes for payloads of 200 (`src/tracker.c:7-9` says 212 and 210), partitions at 0x80 and
0x480 (`src/storage.c:4-6` says 0x1000 and 0x2000).

## What does not hold, and exactly when it does

- A chunk ACK left over from an earlier activation and handled before the first INIT_ACK is counted. The transfer is
  then admitted in order only if that ACK asked for chunk 0 (`StaleAckCounts`; for any number of them
  `FirstWindowExact`); otherwise chunk 0 is never sent unless a later negative ACK asks for it by name or the
  counter comes round (`StaleAckSkipsFirstChunk`). An ACK that asks for a repeat and names a chunk far ahead makes
  that chunk go out early at any time (`StaleFailureJumpsAhead`). Nothing else takes an admitted sender out of its
  window (`StepKeepsWindow`, `WindowExact`).
- `cmd_ld_chunk` accepts a serial chunk ahead of the one due and counts it (`AheadLeavesGap`).
- The gateway's cached sender and device id outlive a transfer. A `#LD` line left over from it and an OK, between
  the next AT#LDINIT and its answer, make chunk 1 go out before chunk 0, under the old device id
  (`StaleReplyReorders`, `PrintedIdExact`). A second answer to AT#LDINIT repeats chunk 0, and a failed read or write
  loses its chunk (`SecondInitRepeats`, `FailedSendSkips`). These three are all: without them the chunks of every
  transfer go out each once and in order, with any of them they do not (`StepExact`, `StreamIsBlob`,
  `OrderedDelivery`).
- The host tool files no line while two transfers are open at it under one data id (`RivalsIgnored`), as when a lost
  chunk has left the earlier one open (`LostChunkBlocksNext`). It misses a transfer whose chunks were all written
  exactly when it is completed beside such a rival (`ReaderExact`).
- A retransmitted INIT is answered BUSY while its own transfer is incomplete (`RepeatedInitIsBusy`), and on an
  anchor a COMPLETE answer clears `ld_busy` in the middle of a reception; nothing else does (`StepBusyExact`,
  `BusyIsExact`).
- `tracker_add` ignores a failed payload write (`PutExact`, `StalePayloadResent`).
- 255 allowed retries never run out (`RetryBound`, `RetryBoundOverRuns`).
- `storage_mesh_update` by itself leaves the RAM mirror behind when a mirrored field changes
  (`MeshUpdateExact`); `update_mesh_storage` does not. On an empty table the latter reports FAILURE.
- `build_joined_network` adds without asking `check_infra_storage` (`UncheckedAdd`).
- The PSRAM bounds check lets a request through whose end wraps at 2^32 (`BoundsCheckExact`, `BoundsCheckWraps`).
- Allocating for size 0 takes a page nobody owns (`ZeroSizeLeaksPage`); both callers test for it.

## Model

| member | source | states |
|---|---|---|
| `PsramDriver.BurstInPage` | src/psram.c:118-120 | every burst of a read or write is non-empty and stays inside one 1024-byte device page |
| `PsramDriver.CoveredClosedForm` | src/psram.c:117-155 | a transfer that fails after g good bursts has carried exactly the bytes up to the end of the g-th device page it touches |
| `PsramDriver.BoundsCheckExact` | src/psram.c:112-115 | the 32-bit bounds check rejects exactly the transfers that leave the device if and only if address plus length does not wrap to an in-range value |
| `PsramDriver.BoundsCheckWraps` | src/psram.c:112-115 | a request whose sum wraps at 2^32 passes the check although it leaves the device |
| `PsramDriver.Psram.Read` | src/psram.c:105-156 | the burst loop is a flat copy: on success the buffer holds the addressed bytes, on a failing burst a prefix of them, nothing else of the buffer changes; the three error codes and when each is returned |
| `PsramDriver.Psram.Write` | src/psram.c:158-205 | the burst loop replaces exactly the addressed bytes (on a failing burst a prefix) and no other byte of the device |
| `PsramDriver.Psram.Clear` | src/psram.c:218-246 | success means the range is zero and everything outside it is unchanged |
| `PsramDriver.WriteThenRead` | src/psram.c:158-205 | a range reads back as written and the rest of the device is as before |
| `PsramDriver.StoreOutside` | src/psram.c:158-205 | a write, complete or cut short, leaves every disjoint range as it was |
| `Crc32Ieee.Crc32UpdateConcat` | src/large_data.c:278-287 | updating a CRC-32 piece by piece gives the CRC-32 of the concatenation (the CRC of section 8 of RFC 1952) |
| `Crc16CcittFalse.Crc16Ccitt` | tools/sensor_sim.py:304-313 | the byte and bit loops compute the register defined by folding bytes, from 0xFFFF with polynomial 0x1021 |
| `Crc16CcittFalse.BurstDetected` | tools/sensor_sim.py:304-313 | for messages of any equal length, any change confined to 16 consecutive bits changes the CRC-16 |
| `Crc16CcittFalse.TwoByteChangeDetected` | tools/sensor_sim.py:304-313 | a change confined to two adjacent bytes always changes the CRC-16 |
| `LargeDataTypes.TransferBounds` | src/large_data.h:11-21 | every admissible size gives at most 1138 radio chunks, each with its own bit in the 143-byte bitmap, at most 434 serial chunks and 36 pages, and the chunks fit the pages allocated |
| `Bitmaps.MarkExact` | src/large_data.c:319-338 | setting a chunk's bit sets that bit and no other |
| `Bitmaps.CountFull` | src/large_data.c:333-352 | the number of set bits reaches n exactly when every one of the n bits is set |
| `LargeDataStore.RunFrom` | src/large_data.c:76-94 | the page search finds the leftmost run of that many empty pages, or none exactly when there is none |
| `LargeDataMachine.ScanStep` | src/large_data.c:76-94 | the counting scan that restarts at every used page finds that leftmost run |
| `LargeDataMachine.LargeData.AllocLargeDataSlot` | src/large_data.c:64-96 | takes the first inactive slot and the leftmost long enough run of empty pages, marks exactly those pages used, and on failure changes nothing |
| `LargeDataStore.ReserveComplete` | src/large_data.c:64-96 | allocation fails exactly when every slot is active or no run of ceil(size / 5760) empty pages exists, and then changes nothing |
| `LargeDataStore.AllocKeepsOwnership` | src/large_data.c:186-205 | allocating and filling in a slot keeps: active slots own disjoint in-range page ranges and a page is marked empty exactly when no active slot owns it |
| `LargeDataStore.ReleaseKeepsOwnership` | src/large_data.c:98-112 | freeing gives back exactly the pages the slot owned and keeps the same ownership map |
| `LargeDataStore.ZeroSizeLeaksPage` | src/large_data.c:76-94 | for size 0 the allocator takes a page that no slot owns, so the callers' test for zero is needed |
| `LargeDataMachine.LargeData.FreeLargeDataSlot` | src/large_data.c:98-112 | deactivates the slot and marks exactly its pages empty |
| `LargeDataStore.InitOwnership` | src/large_data.c:1012-1025 | start-up establishes the ownership map |
| `LargeDataMachine.LargeData.constructor` | src/large_data.c:1012-1025 | after initialisation no slot is active, every page is empty and the ownership map holds |
| `LargeDataMachine.LargeData.FindLargeDataSlot` | src/large_data.c:54-62 | the first active slot for a generating device and data id, or -1 exactly when there is none |
| `LargeDataMachine.LargeData.ValidateLargeDataSlot` | src/large_data.c:177-215 | the whole new state and status of an INIT: BUSY, COMPLETE, ALREADY_EXISTS and RESOURCE_UNAVAILABLE change nothing, SUCCESS opens one slot and sets ld_busy |
| `LargeDataReceiver.InitKeepsReceiving` | src/large_data.c:177-215 | no INIT, whatever sizes it announces, breaks ownership or the counters, and none touches memory |
| `LargeDataMachine.LargeData.ValidateLargeDataChunk` | src/large_data.c:298-362 | the whole new state and status of a chunk packet, failing writes and failing checksum reads included |
| `LargeDataReceiver.ChunkInPages` | src/large_data.c:323-325 | a chunk's bytes lie inside the pages of its slot even when the announced last_chunk_size or page_count is inconsistent |
| `LargeDataReceiver.ChunkKeepsReceiving` | src/large_data.c:298-362 | after any chunk packet received_count is the number of set bits, no bit at or above total_chunks is set, and ownership holds |
| `LargeDataReceiver.CompleteIffAllArrived` | src/large_data.c:347-360 | a slot is upstream_ready exactly when every index below total_chunks has arrived |
| `LargeDataReceiver.ChunkIsolated` | src/large_data.c:323-331 | a chunk packet writes only inside the pages of the incomplete slot it is addressed to |
| `LargeDataReceiver.ReadyFrozen` | src/large_data.c:298-334 | once a slot is upstream_ready no packet changes its record or any byte of its pages |
| `LargeDataReceiver.RegionsDisjoint` | src/large_data.c:87-90 | different active slots occupy disjoint address ranges |
| `LargeDataReceiver.RepeatedInitIsBusy` | src/large_data.c:179-182 | an INIT, a repeat of the one being received included, is answered BUSY exactly while some transfer is incomplete, and then changes nothing |
| `LargeDataReceiver.InitKeepsOneOpen` | src/large_data.c:177-215 | an INIT keeps ld_busy equivalent to one, and only one, incomplete slot, and succeeds exactly when none is open, the key is new and there is room |
| `LargeDataReceiver.ChunkKeepsOneOpen` | src/large_data.c:347-360 | so does a chunk |
| `LargeDataMachine.LargeData.VerifyCrc32` | src/large_data.c:269-296 | reading back in 1024-byte stages succeeds exactly when no read fails and the CRC-32 of the whole region is the announced one; the loop ends |
| `LargeDataMachine.ReadBackStep` | src/large_data.c:277-287 | after each stage the running value is the CRC-32 of the part of the region read so far, each byte once |
| `LargeDataMachine.LargeData.HandleLargeDataInit` | src/large_data.c:652-710 | role, sender type and size checks in the source's order, and whether an answer is sent |
| `LargeDataMachine.LargeData.HandleLargeDataChunk` | src/large_data.c:791-845 | the same for chunks |
| `LargeDataContent.ChunkKeepsContent` | src/large_data.c:298-362 | genuine chunks in any order, any number of times, with any memory faults, never leave a wrong byte under a set bit of any slot |
| `LargeDataContent.InitKeepsContent` | src/large_data.c:177-215 | a genuine INIT keeps that too |
| `LargeDataContent.CompleteIsWhole` | src/large_data.c:347-360 | a complete slot holds the sender's whole blob |
| `Pieces.PiecesDetermine` | src/large_data.c:323-325 | a blob is determined by its pieces |
| `Pieces.JoinedAll` | tools/gateway_gui.py:239-239 | joining all pieces in order gives the blob back |
| `LargeDataMachine.LargeData.SendNextLargeDataChunk` | src/large_data.c:123-152 | the loop sends the window of four at next_chunk, stopping at the end or, deactivating the sender, at the first failing read |
| `LargeDataMachine.LargeData.ResendLargeDataChunk` | src/large_data.c:154-175 | the named chunk again, or a deactivated sender |
| `LargeDataSender.WindowIndices` | src/large_data.c:123-152 | unless a read fails, a window sends exactly the existing indices next_chunk .. next_chunk + 3; when one fails, none beyond |
| `LargeDataMachine.LargeData.HandleLargeDataInitAck` | src/large_data.c:712-789 | the whole new state and the packets sent, for every status |
| `LargeDataMachine.LargeData.HandleLargeDataChunkAck` | src/large_data.c:847-950 | the whole new state and the packets sent, for every status |
| `LargeDataSender.CountedSends` | src/large_data.c:921-937 | a counted ACK moves the counter by one, repeats the chunk it complains about, and sends the next window exactly on every fourth count |
| `LargeDataSender.StepKeepsWindow` | src/large_data.c:847-950 | one step keeps an admitted sender's sent indices a prefix of length between min(total, 4 * (acks / 4 + 1)) and min(total, acks + 4) if and only if it is not a counted ACK out of turn (asking for a chunk neither sent, due nor next) and not a first INIT_ACK that admits out of order; any positive ACK, stale or repeated, any further INIT_ACK and any other event keeps it |
| `LargeDataSender.WindowExact` | src/large_data.c:847-950 | so the sent indices are such a prefix in every admitted state of a run if and only if the transfer was admitted in order and every ACK counted after that was in turn; nothing is asked of the states before admission |
| `LargeDataSender.NeverStalls` | src/large_data.c:877-933 | in every state of every run in turn some sent chunk still lacks its acknowledgement: all sent chunks acknowledged with chunks unsent is unreachable |
| `LargeDataSender.AdmissionExact` | src/large_data.c:759-765 | the first window makes the sent indices a prefix within the window if and only if every index below the window's end is already sent or due in it and none beyond is sent, the 16-bit counter included |
| `LargeDataSender.FirstWindowExact` | src/large_data.c:759-765 | in terms of next_chunk, whatever went out before: an accepted first INIT_ACK starts with a prefix if and only if all chunks below the counter have gone out already and none from counter + 4 on |
| `LargeDataSender.StaleAckCounts` | src/large_data.c:921-933 | any ACK left over from an earlier activation, arriving before the INIT_ACK, is counted and sends at most the chunk it asks for; the transfer can then be admitted in order if and only if that is chunk 0 |
| `LargeDataSender.StaleAckSkipsFirstChunk` | src/large_data.c:759-765 | and then chunk 0 is never sent in the rest of the run, unless an ACK asks for it by name or the counter wraps |
| `LargeDataSender.StaleFailureJumpsAhead` | src/large_data.c:921-928 | a concrete FAILURE left over from an earlier activation, after a correct start, makes chunk 320 go out before chunk 4 and the sender goes on |
| `LargeDataTicks.ActivationStartsRun` | src/large_data.c:450-487 | a tick that activates the sender puts it at the start of such a run |
| `LargeDataWindows.OthersLeaveSender` | src/large_data.c:412-567 | receptions, serial lines and ticks leave an active sender's record alone or switch it off |
| `LargeDataWindows.SenderNeverStalls` | src/large_data.c:847-950 | every run of any network: while a transfer's admission and the ACKs an anchor or sensor counted for it were in turn, what it has sent is a prefix within the window and some sent chunk still lacks its ACK |
| `LargeDataMachine.LargeData.RadioLargeDataTick` | src/large_data.c:412-567 | anchor and sensor tick: expiry, the dropped malformed slot, the first waiting slot and the announced INIT |
| `LargeDataMachine.LargeData.GatewayLargeDataTick` | src/large_data.c:364-410 | the gateway tick with its two ways of giving up |
| `LargeDataSerial.InitLineConsistent` | src/large_data.c:1179-1186 | an accepted AT#LDINIT announces exactly the cut of its total into 472-byte chunks |
| `LargeDataMachine.LargeData.CmdLdInitLine` | src/large_data.c:1118-1230 | acceptance or rejection of an announcement and the slot it opens |
| `LargeDataMachine.LargeData.CmdLdChunkLine` | src/large_data.c:1288-1415 | acceptance or rejection of a serial chunk, its effect on memory and slot, and the final checksum and re-cut |
| `LargeDataStaging.ExpectedIsPiece` | src/large_data.c:1363-1366 | the length demanded of a serial chunk is the length of that piece, through the 32- and 16-bit arithmetic |
| `LargeDataStaging.SerialChunkBooks` | src/large_data.c:1353-1412 | any serial line, in order or not, keeps the slot table's bookkeeping |
| `LargeDataStaging.OnlyWritesChange` | src/large_data.c:1311-1380 | a line that is not stored changes nothing; no line is stored into a complete slot |
| `LargeDataStaging.SerialReadyFrozen` | src/large_data.c:1374-1379 | no serial line changes the record or the region of a complete slot |
| `LargeDataStaging.SerialChunkContent` | src/large_data.c:1353-1412 | in-order staging with repeats keeps the staged prefix exact, and a slot that completes holds the whole blob cut for the radio |
| `LargeDataStaging.AheadLeavesGap` | src/large_data.c:1374-1396 | a chunk ahead of the one due is accepted and counted; the staged prefix stays exact if and only if it was the chunk due or memory held the skipped bytes already |
| `LargeDataMachine.LargeData.AtSendNextChunk` | src/large_data.c:1047-1116 | the line written for a page and chunk, with the cached device id it prints, or none, for every check but the length check, which never rejects (`GatewayLineFits`) |
| `LargeDataMachine.LargeData.CmdLdChunkReady` | src/large_data.c:1461-1481 | the OK after a chunk: completion or the next chunk |
| `LargeDataHost.Conversation.CmdLdInitReply` | src/large_data.c:1232-1278 | the host's #LDINIT line does what the conversation step says: it caches the matching sender and its device id, or forgets the sender; only a match makes the next OK send chunk 0 |
| `LargeDataHost.Conversation.CmdLdChunkReply` | src/large_data.c:1417-1459 | the host's #LD line does what the conversation step says: only a line that fits the cached sender makes the next OK count |
| `LargeDataHost.Conversation.OtherCommandReply` | src/slm_at_main.c:171-174 | a report's or configuration's reply takes over the one pending acknowledgement |
| `LargeDataHost.Conversation.HostOk` | src/slm_at_main.c:277-318 | an OK does what the conversation step says, state and line sent, whatever kind of acknowledgement was pending, and is forgotten afterwards |
| `LargeDataHost.Conversation.HostError` | src/slm_at_main.c:320-356 | an ERROR sends nothing and forgets the pending acknowledgement, the transfer staying as it is |
| `LargeDataHost.GatewayTickSound` | src/large_data.c:364-410 | announcing a blob leaves a sender record the conversation can cut every chunk from, even if an earlier one is still cached |
| `LargeDataGateway.AtSendCarries` | src/large_data.c:1074-1078 | every line written carries the blob's bytes for the index it names, and one is written exactly when the index exists and no read or write fails |
| `LargeDataGateway.StepExact` | src/large_data.c:1279-1482 | one host line keeps the chunks written a gapless run from 0, each once and in order, if and only if it is not an OK that disorders them: one consumed as a chunk reply before chunk 0 went out, as a second answer to AT#LDINIT after, or whose chunk cannot be read or written |
| `LargeDataGateway.StreamIsBlob` | src/large_data.c:1232-1482 | whole conversations from the tick that announces: when the sender finishes, the lines are all the chunks in order if and only if no OK of the conversation disorders them, and then their payloads are the blob |
| `LargeDataGateway.StaleReplyReorders` | src/large_data.c:1443-1482 | a #LD line left over from the transfer before and an OK, between AT#LDINIT and its one answer: chunk 1 goes out first under the old device id, the answer sends chunk 0 second |
| `LargeDataGateway.PrintedIdExact` | src/large_data.c:1083-1087 | the device id printed in a line is that of the transfer sent if and only if it was cached before, or this transfer's AT#LDINIT was answered before the line |
| `LargeDataGateway.SecondInitRepeats` | src/large_data.c:1279-1285 | a second answer in mid-transfer makes chunk 0 go out again |
| `LargeDataGateway.FailedSendSkips` | src/large_data.c:1473-1480 | a failed read or write loses its chunk for good: whatever the host says next, the stream never becomes whole |
| `HostReader.FilesPiece` | tools/gateway_gui.py:208-239 | without a rival under its data id a line is filed under its transfer whatever device id it starts with, new chunk or repeat; the last missing one puts the blob together, checked and correct |
| `HostReader.RivalsIgnored` | tools/gateway_gui.py:209-224 | with two transfers open under one data id no line is filed, exactly unless its device id is one of their serial numbers |
| `HostReader.ReaderReads` | tools/gateway_gui.py:150-239 | rivals or not, what the host has put together are exactly the transfers whose last missing chunk was read while no other was open under their data id, each the blob announced, once and in that order |
| `HostReader.ReaderExact` | tools/gateway_gui.py:150-239 | whatever a gateway wrote, in whatever order: the host has put together exactly the transfers all of whose chunks were written if and only if none was completed while another was open under its data id |
| `HostReader.LostChunkBlocksNext` | tools/gateway_gui.py:208-224 | a transfer that ends with a chunk never written makes the host lose the next one another device announces under its data id, whatever lines are written for that |
| `HostReader.OrderedReader` | tools/gateway_gui.py:150-239 | chunks written in order and whole never meet a rival, and leave every announced blob with the host and nothing else open |
| `LargeDataNetwork.ChunkAckGenuine` | src/large_data.c:847-950 | whatever ACKs arrive, every packet sent carries its blob's bytes |
| `LargeDataNetwork.ChunkKeepsStored` | src/large_data.c:298-362 | receiving never disturbs the region the device is sending from |
| `LargeDataNetwork.SerialChunkKeepsStored` | src/large_data.c:1288-1415 | nor does staging |
| `LargeDataNetwork.StepKeeps` | src/large_data.c:652-950 | one step of one device, on any packet ever sent or any ACK, tick or host line, keeps its content sound and sends only genuine packets |
| `LargeDataNetwork.EverySlotHoldsTheBlob` | src/large_data.c:298-362 | every run of any number of devices over a channel that loses, repeats, reorders and misdelivers: a set bit vouches for its chunk and every complete slot is the origin's blob |
| `LargeDataDelivery.OpensInStep` | src/large_data.c:364-410 | a gateway tick that announces a transfer starts an undisturbed stream, whatever was cached or pending before |
| `LargeDataDelivery.OrderedDelivery` | src/large_data.c:1047-1482 | every run of any network, receptions and ticks in between: until an OK disorders it, the lines since AT#LDINIT are the chunks in order under their own device id; once the sender has finished they are the whole blob if and only if no OK has |
| `LargeDataDelivery.EndToEnd` | tools/gateway_gui.py:150-239 | every such run, disordered or not: the host has put together exactly the blobs staged at their origins of the transfers completed beside no rival, and that is all whose chunks were all written if and only if none was completed beside one |
| `LargeDataDelivery.HostHasEveryBlob` | tools/gateway_gui.py:150-239 | when no OK disorders a stream, the host has every blob whose transfer has finished, in order, and lacks only the one still going out |
| `LargeDataAnyTraffic.StepKeepsBooks` | src/large_data.c:652-950 | any act of any device, whatever sizes and bytes its packet or line contains, keeps the slot table's books and the page map |
| `LargeDataAnyTraffic.EveryStateBooked` | src/large_data.c:298-362 | in every state reached under any traffic received_count is the number of set bits, none at or above total_chunks is set, a slot is complete exactly when every index has arrived, and page ownership holds |
| `LargeDataAnyTraffic.StepBusyExact` | src/large_data.c:766-772 | one act of a relay keeps ld_busy exact if and only if it is not a COMPLETE answer that an anchor takes while receiving |
| `LargeDataAnyTraffic.BusyIsExact` | src/large_data.c:177-215 | over every run under any traffic ld_busy is set exactly when one, and only one, slot is incomplete, in every state: on a gateway always, on an anchor if and only if no COMPLETE answer is taken while receiving |
| `LargeDataAnyTraffic.FrozenUntilFreed` | src/large_data.c:298-334 | over every run under any traffic, from upstream_ready until it is freed a slot's record and every byte of its blob stay as they are |
| `Timeout.NbTimeout.constructor` | src/timeout.c:8-14 | a fresh timer is not running and counts from one |
| `Timeout.NbTimeout.StartFrom` | src/timeout.c:16-19 | the deadline is one duration ahead and nothing else changes |
| `Timeout.NbTimeout.HasExpired` | src/timeout.c:31-38 | expired means running and at or past the deadline |
| `Timeout.NbTimeout.RetryFrom` | src/timeout.c:40-51 | the eight-bit counter is raised before the comparison; exhausted stops, otherwise restarts |
| `Timeout.RetryBound` | src/timeout.c:40-51 | for every monotone clock: sent again on each of the first max - 1 expiries, reported exhausted once, on expiry max (the first if max is 0); with max = 255 never exhausted |
| `Timeout.ExhaustedNotBefore` | src/timeout.c:16-51 | exhaustion is reported no earlier than max durations after the start |
| `Timeout.PollingExhausts` | src/timeout.c:31-51 | looking once per duration for max durations does exhaust it |
| `TrackerPool.SlotsDisjoint` | src/tracker.c:27-46 | payload slots are disjoint and inside the 32 KB partition |
| `TrackerPool.PutExact` | src/tracker.c:67-80 | a payload ends up whole in its slot if and only if memory already held the part a failing write does not reach |
| `TrackerPool.StalePayloadResent` | src/tracker.c:143-149 | tracker_add ignores a failed write, so an older packet with a valid checksum is sent under the new entry |
| `TrackerPool.HeldReads` | src/tracker.c:84-112 | a payload stored whole reads back and passes its checksum |
| `TrackerPool.RetransmissionsIdentical` | src/tracker.c:128-277 | in every run from start-up, whichever memory writes fail, across slot reuse and updates, a packet the memory accepted is sent again byte for byte as first queued |
| `TrackerPool.ResentIdentical` | src/tracker.c:262-275 | one retransmission of an accepted packet carries exactly its bytes, exactly when the memory read works and the entry is not exhausted |
| `TrackerPool.DrawsDistinct` | src/tracker.c:292-302 | any 254 consecutive ids are distinct, and the 255th repeats the first |
| `TrackerPool.ActiveIdsDistinct` | src/tracker.c:292-302 | while active entries were drawn within the last 254 draws their ids are pairwise distinct |
| `TrackerPool.RemoveExact` | src/tracker.c:186-198 | an ACK removes exactly the entry it answers if and only if no earlier active entry has the same id |
| `TrackerPool.AckRemovesNamed` | src/tracker.c:186-198 | so it does while entries are recent |
| `TrackerPool.OldEntryShadows` | src/tracker.c:186-198 | an entry that waited 254 draws shadows a newer one behind it |
| `TrackerPool.IdsOverRuns` | src/tracker.c:128-302 | in every state of every run from start-up, ids are those of their draws; while each active entry was drawn within the last 254, they are distinct and an ACK removes exactly the entry it names |
| `TrackerPool.AddStartsTimer` | src/tracker.c:138-140 | every active entry has a running timer exactly unless clock and duration are both zero |
| `TrackerPool.TickTimersExact` | src/tracker.c:244-277 | a pass over the pool keeps every active entry's timer running exactly unless a restart meets a clock and a duration of zero |
| `TrackerPool.TimersOverRuns` | src/tracker.c:128-277 | so every active entry has a running timer in every state of every run from start-up whose timers have durations |
| `TrackerRetries.PassCallbacks` | src/tracker.c:244-277 | a pass makes exactly one callback about an entry whose timer has expired, of the right kind, and none about another |
| `TrackerRetries.RetryBoundOverRuns` | src/tracker.c:128-277 | in every run of the pool, whatever is added, acknowledged, forgotten or rewritten in between, the callbacks about a packet not answered itself are: sent again on each of the first max - 1 expiries, exhausted once, on expiry max and no earlier than max durations after it was handed over; with max = 255 sent again for ever |
| `TrackerRetries.CallbacksRunOut` | src/tracker.c:244-277 | in a run that adds nothing the callbacks never exceed the looks left in the pool, and use up exactly one each when nothing is dropped: a termination measure |
| `TrackerMachine.Tracker.AddEntry` | src/tracker.c:128-160 | the first free entry, payload cut to 200 bytes and written with its checksum, or -1 when full |
| `TrackerMachine.Tracker.TickAll` | src/tracker.c:244-277 | the loop over the pool: new entries and the callbacks in order with what each is given |
| `TrackerMachine.Tracker.RemoveByTrackingId` | src/tracker.c:186-198 | the first active entry with that id is stopped and dropped |
| `TrackerMachine.Tracker.RemoveAllFor` | src/tracker.c:216-226 | all entries of a device are stopped and dropped |
| `TrackerMachine.Tracker.UpdatePayload` | src/tracker.c:228-242 | the payload of the named entry is replaced |
| `TrackerMachine.Tracker.PayloadWrite` | src/tracker.c:67-80 | payload and checksum in one write, cut short by failing bursts |
| `TrackerMachine.Tracker.PayloadRead` | src/tracker.c:84-112 | the payload exactly when the read succeeds and the checksum matches |
| `TrackerMachine.Tracker.NextTrackingId` | src/tracker.c:292-302 | returns the current id and moves to the next of 1..254 |
| `Eeprom.UnpackPack` | src/storage.h:45-52 | packed little-endian fields unpack to themselves |
| `Eeprom.RecordReads` | src/storage.c:79-105 | a written record passes its CRC-32 and reads back field by field |
| `Eeprom.FlushImage` | src/storage.c:254-265 | a flush that succeeds leaves exactly these records behind a valid header |
| `Eeprom.FlushElsewhere` | src/storage.c:254-265 | and writes nothing outside its partition, successful or not |
| `Eeprom.ShiftImage` | src/storage.c:498-517 | the block move of mesh removal leaves exactly the remaining records |
| `Eeprom.AppendImage` | src/storage.c:434-447 | record first, then header, extends the image by one record |
| `Eeprom.UpdateImage` | src/storage.c:450-458 | rewriting one record changes that record only |
| `StorageTables.PartitionsFit` | src/storage.h:31-39 | full tables end inside their partitions and the partitions do not overlap |
| `StorageTables.FlushInfraSync` | src/storage.c:254-265 | flushing brings the infra partition in step with RAM and leaves the other two alone |
| `StorageTables.MeshUpdateExact` | src/storage.c:450-458 | storage_mesh_update by itself keeps RAM and image in step if and only if the mirrored fields are unchanged |
| `StorageTables.UpdateMeshSync` | src/mesh.c:213-253 | update_mesh_storage finds the device exactly if the table has it and changes record and RAM mirror alike, and nothing otherwise |
| `StorageTables.MeshRemoveSync` | src/storage.c:488-518 | removal keeps RAM rows and records in step, CRCs included |
| `StorageTables.MeshAddSync` | src/storage.c:427-448 | so does adding |
| `StorageTables.ApplyKeepsSync` | src/storage.c:267-518 | every operation, accepted or rejected, keeps all three tables and the image in step while the EEPROM works |
| `StorageTables.ReloadLaw` | src/storage.c:109-215 | booting from an image in step gives exactly the RAM tables of the device's role |
| `StorageTables.ReloadAfterAnyRun` | src/storage.c:109-215 | after any sequence of operations from a blank EEPROM, storage_init gives back exactly the RAM tables |
| `StorageRuns.ReloadAcrossReboots` | src/storage.c:109-215 | the same for a device of any role over any sequence of its operations and reboots |
| `StorageMachine.Storage.SortInfraDevices` | src/storage.c:225-249 | the in-place bubble sort computes the specified passes |
| `InfraOrder.SortOrders` | src/storage.c:225-249 | the result is a permutation ordered by hop ascending, then signal descending |
| `InfraOrder.AddDistinctExact` | src/mesh.c:107-111 | adding keeps device ids distinct if and only if the id is new, which is what check_infra_storage asks |
| `StorageMachine.Storage.FlushInfraToEeprom` | src/storage.c:254-265 | stamps and writes row by row, then the header, stopping at the first failing write |
| `StorageMachine.Storage.StorageInfraAdd` | src/storage.c:267-284 | append, sort, flush; full tables are refused |
| `StorageMachine.Storage.StorageInfraUpdate` | src/storage.c:286-296 | replace, sort, flush; bad indices are refused |
| `StorageMachine.Storage.StorageInfraRemove` | src/storage.c:310-324 | shift out one row and flush |
| `StorageMachine.Storage.StorageInfraClear` | src/storage.c:331-338 | empty table, header written |
| `StorageMachine.Storage.StorageSensorAdd` | src/storage.c:357-372 | append and flush |
| `StorageMachine.Storage.StorageSensorRemove` | src/storage.c:401-414 | shift out one row and flush |
| `StorageMachine.Storage.StorageMeshAdd` | src/storage.c:427-448 | record, mirror row, header, with what remains after a failing write |
| `StorageMachine.Storage.StorageMeshRemove` | src/storage.c:488-518 | mirror rows move first, then the records as a block, then the count, with what remains after a failing read or write |
| `StorageMachine.Storage.UpdateMeshStorage` | src/mesh.c:213-253 | field-by-field merge of record and mirror; FAILURE, not NOT_FOUND, for an empty table |
| `StorageMachine.Storage.StorageInit` | src/storage.c:109-215 | counts from the headers, the first two cut to eight bits, then the rows each role loads; a header that cannot be read ends it, a record that is invalid or cannot be read is marked |
| `Topology.CheckInfraStorage` | src/mesh.c:94-120 | known, full or free, by early-exit scan |
| `Topology.ApplyKeepsOrder` | src/storage.c:267-324 | after every operation, whether or not its writes succeed, the infra table is ordered, and its ids distinct if callers keep to their checks |
| `Topology.OrderOverRuns` | src/storage.c:267-324 | so in every state of every run of storage operations, whichever EEPROM writes fail |
| `Topology.UncheckedAdd` | src/mesh_layers/mesh_pairing.c:109-116 | an add without the check keeps ids distinct exactly when the id was new anyway |
| `Topology.DeviceInfo.Update` | src/product_info.c:215-268 | hop, parent, reset, announcement and restart for every table |
| `Topology.UpdateExact` | src/product_info.c:215-268 | on an anchor the update returns exactly when the least recorded hop is neither above its own nor at the limit; then hop = 1 + least hop, in 1..4 |
| `Topology.FirstIsBest` | src/storage.c:217-223 | row 0 of an ordered table has the least hop and, among those, the strongest signal |
| `Topology.ChainsReachGateway` | src/product_info.c:240-267 | when recorded hops are current, every parent chain reaches the gateway in hop-number steps and passes no device twice |
| `AtHex.HexU64Wraps` | src/slm_at_main.c:130-147 | a field too long for 64 bits is cut to its value modulo 2^64, not rejected |
| `AtHex.PrintHexRoundTrip` | src/slm_at_main.c:130-147 | field_hex_u64 inverts hexadecimal printing for every 64-bit value and minimum width |
| `AtHex.PrintHexWidth` | tools/sensor_sim.py:712-721 | a value that fits its width is printed in exactly that many digits |
| `AtHex.DecodeEncode` | src/slm_at_main.c:151-169 | hex_decode inverts the nibble-table encoder exactly as long as the payload fits the buffer |
| `AtHex.ParseU64` | src/slm_at_main.c:137-146 | the digit loop, first bad character rejected |
| `AtHex.HexDecodeInto` | src/slm_at_main.c:151-169 | the decoding loop with its three errors |
| `AtFields.FieldGet` | src/slm_at_main.c:108-126 | the idx-th complete quoted field, or none |
| `AtFields.FieldHexU64` | src/slm_at_main.c:130-147 | a missing, empty or non-hexadecimal field is an error |
| `AtFields.QuotedFields` | tools/sensor_sim.py:644-656 | all quoted fields, or nothing when a quote is left open |
| `AtFields.ParsersAgree` | tools/sensor_sim.py:644-656 | the C and the Python parser find the same fields |
| `AtFields.SpellRoundTrip` | src/slm_at_main.c:108-126 | for quote-free fields field_get returns field i of the printed line and fails past the end |
| `AtLines.RunCycle` | src/slm_at_main.c:469-490 | the lines dispatched are the maximal runs without CR and LF, in order |
| `AtLines.SplitReads` | src/slm_at_main.c:469-490 | splitting gives back exactly the non-empty lines that were joined by line breaks |
| `LdLines.LdRoundTrip` | tools/sensor_sim.py:724-741 | what build_at_ld makes is dispatched as one line and read back field by field by cmd_ld_chunk |
| `LdLines.LdFits` | tools/sensor_sim.py:724-741 | and never exceeds the 1024-byte command buffer |
| `LdLines.InitRoundTrip` | tools/sensor_sim.py:685-721 | the same for build_at_ldinit and cmd_ld_init |
| `LdLines.IterLdChunks` | tools/sensor_sim.py:744-755 | the blob cut into numbered pieces |
| `LdLines.HostChunkGenuine` | tools/sensor_sim.py:724-755 | the host tool's chunk line is accepted by the sensor it is meant for and carries its piece of the blob |
| `LdLines.HostInitGenuine` | tools/sensor_sim.py:685-721 | so is its announcement |
| `LdLines.GatewayRoundTrip` | src/large_data.c:1087-1108 | the host reads from a gateway line exactly the chunk printed |
| `LdLines.GatewayLineFits` | src/large_data.c:1090-1098 | no line for an existing chunk is longer than the command buffer, so the length check never rejects |

## Left out

- Radio and modem callbacks, UART and SPI and I2C transfers, logging, LED, GPIO and Tk code: I/O.
- The transmit queue's three priorities and its bounded depth: a packet put on the queue is a value returned by the step.
- The report plane (`src/data.c`) and configuration plane (`src/config.c`), pairing, route discovery, OTA, mesh time.
- The text of the gateway's AT#LDINIT line (`src/large_data.c:217-267`) and of the sensor's own answers: the announcement is a record of its fields without timestamp and CRC-16.
- `_handle_ldinit` and `_handle_ld` beyond filing and joining (`HostReader` starts from the parsed fields): the lines they write back are the host lines of the conversation, which may be any.
- `dispatch()` itself: a line is modelled from the text behind its command name on.
- Idle timers of slots and reclamation of completed sender slots: nothing polls or frees them.
- Liveness of whole transfers: safety and the no-stall property only.
- Altered packets: the channel does not alter a packet; the CRC-16 and CRC-32 results say what the checksums notice.
- Two blobs under one device id and data id at the same time: one blob per key is an assumption of the content results.
- The chunk-reply path with no sender cached (`sender_idx_cache` of -1): read as no sender, where the code would index before its array.
- StorageMachine.Storage.StorageInit: excludes header counts beyond the tables, which the code does not check; an EEPROM that is not ready is left out.
- `storage_sensor_update`, `storage_sensor_clear` and `storage_mesh_clear` as methods: step functions only, the same shape as their neighbours.
- `tracker_remove_by_dst` and the two getters of `src/tracker.c`: the same scan as removal by id.
- A flash of several EEPROM bytes that fails half-way: an EEPROM write succeeds whole or not at all.
- Psram.Read: excludes the requests whose end wraps at 2^32 into the device, which pass the bounds check (`BoundsCheckExact`) and then leave the byte array; `Psram.Write` and `Psram.Clear` exclude them too.
- A gateway or sensor whose mesh table is empty in `send_at_large_data_init` and `cmd_ld_init_ack` (the code then reads row 0 or keeps the cached sender): the outcome of the lookup is a parameter.
- EverySlotHoldsTheBlob: the sensor's host is assumed to announce and cut its blob truly and never to run ahead of the chunk due, because `cmd_ld_chunk` does not check order (`AheadLeavesGap`).
- RetransmissionsIdentical: says nothing of a packet whose payload write failed; `PutExact` says exactly when that does no harm.
- EndToEnd: says nothing when a line read among rivals starts with a device id that is the serial number of one of them; that cannot be with serial numbers of more than 16 bits (`LongSerialsClear`).
- OrderedDelivery: the condition is over the lines the host sends; that the host tool sends none out of turn is not proved, its serial input is not modelled.
- ReloadAfterAnyRun: assumes that EEPROM writes succeed, as the law itself does; so does `ReloadAcrossReboots`, with reads that work; the step functions and methods cover failing writes and reads.
