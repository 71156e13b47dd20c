# OpenShuoxin serial server: verified models

OpenShuoxin is firmware for an ESP32 serial server: a UART on one side; TCP, MQTT and a web page on the
other. These Dafny modules model the parts of it that carry state, arithmetic or a protocol, and prove
what those parts promise. `dafny verify dfyconfig.toml` checks everything.

Code that works step by step is a method with loops, or a class with the firmware's own fields, and is
proved equal to a function on values (`Accept`, `Step`, `Handle`, `Turn`, ...). The theorems are about
runs of those functions: any number of steps, in any interleaving of the tasks. The outside world
(sockets, pings, allocations, clocks, locks, answers, other tasks' turns) is an argument everywhere, so
every result holds for all of its behaviours.

| file | part of the system |
|---|---|
| `Crc16.dfy` | the Modbus checksum: three loops, one bit-serial register, error detection |
| `Hex.dfy` | hex printers and parsers |
| `SerialChunks.dfy`, `Uplink.dfy` | page to UART: the chunk context, its runs, the whole way |
| `Downlink.dfy` | UART to page: cutting into messages, reassembly in any order |
| `ClientTable.dfy`, `TcpServer.dfy` | TCP server: the table as a state machine; the tasks with the lock given away |
| `ProtocolManager.dfy`, `NetworkManager.dfy` | protocol flags, network status, events and checks |
| `UartFraming.dfy`, `UartPipeline.dfy`, `UartTasks.dfy`, `UartStream.dfy` | bytes to frames, two queues, heap ownership, the tasks' code, line to TCP |
| `SlidingLog.dfy` | the log buffer |
| `WifiRetry.dfy` | reconnect back-off |
| `ModbusPoll.dfy` | poll budget, waits, requests |
| `WorkMode.dfy`, `Led.dfy` | mode registry and lifecycle; network LEDs |

Results where the code does less than one might expect, each with the exact condition or a run that
shows it:

- `init_clients` forgets the slots but not the counter: a restart keeps the books exactly when no client
  is left (`RestartKeepsIffEmpty`), and one can be left (`RestartCanLoseCount`).
- A boot event resets the network state without telling the protocol manager: harmless exactly when the
  network was down (`BootKeepsIffDown`); a run in which it was not is `LateBootBreaks`.
- The page is told ok although nothing goes out on the UART, exactly if every chunk was accepted and the
  last one's `tx_tasks` could not send (`SendInstructionChunks`).
- A heap block is lost for good exactly if some stop of the transparent mode finds its task holding a
  message (`LeakIffStoppedHolding`), and that happens (`StopCanLeak`).
- A template timeout outside 100..10000 is added up as configured but waited for as one second, so the
  poll budget's second of slack is there exactly under the condition of `SlackIffTotals`. Reinitialising
  the UART, settling and sending are not added up at all: a full cycle fits every poll interval exactly if
  they take no more than that second and what was reserved for templates that never send
  (`CycleFitsIff`). More than sixteen usable templates do not fit the least interval (`SixteenAtMost`); on
  an idle line two do not (`TwoOverrunIdleLine`), because the message that is to wake the processing task
  up does not (`ExitDelayIff`).
- An outage that begins during the retry task's 100 ms delay can see 60 attempts in its first ten
  minutes instead of 59, exactly if the attempt under way is made (`AttemptBounds`, `CarriedIff`,
  `BoundsMet`).
- A separator leaves the result of the client's hex parser alone exactly if it neither makes nor breaks the
  `0x` prefix, or the digits are too many either way or just the one leading zero (`SeparatorIgnored`,
  `SeparatorMakesPrefix`).
- Both network LEDs can be on after a callback (`BothHappens`), exactly if the interface changes between its
  last two reads, the LED that is not switched off is on before it, and flags and flash cycle call for
  light (`BothIff`).
- A transmission throws away what the UART driver has and the receive task has not read: what was read is
  all that arrived exactly if no flush found anything (`BytesConserved`), and a flush can tear a frame
  (`FlushTearsFrame`).
- A purge of the UART queue leaves the newest five, but for as many as `stop_rx_task` drains meanwhile
  (`PurgeKeepsNewest`).
- A CRC of sixteen bits misses a burst of seventeen (`SeventeenBitBurstMissed`).

## Model

| member | source | states |
|---|---|---|
| Crc16.CalculateCrc | main/drivers/sx_modbus.c:32-45 | the driver's loop computes `Crc` |
| Crc16.ModbusCrc16 | main/system/sx_utils.c:316-329 | the second C loop computes the same `Crc` |
| Crc16.CalculateCrc16Modbus | main/static/web.js:668-683 | the page's loop, on wider numbers and masked at the end, computes the same `Crc` |
| Crc16.BytewiseIsSerial | main/drivers/sx_modbus.c:34-43 | the byte-wise loop is a shift register fed one line bit at a time |
| Crc16.SerialLinear | main/drivers/sx_modbus.c:36-41 | two messages drive the register apart by exactly what their difference alone would do |
| Crc16.ShortBurstNonzero | main/drivers/sx_modbus.c:36-41 | a nonzero difference within sixteen consecutive line bits leaves the register nonzero |
| Crc16.BurstDetected | main/drivers/sx_modbus.c:32-45 | different messages of one length that differ only within sixteen consecutive line bits have different CRCs |
| Crc16.SeventeenBitBurstMissed | main/drivers/sx_modbus.c:32-45 | sixteen is exact: two messages that differ within seventeen bits have the same CRC |
| Crc16.CrcParity | main/drivers/sx_modbus.c:32-45 | counted bit by bit, the CRC has an odd number of ones exactly if the message has |
| Crc16.OddFlipsDetected | main/drivers/sx_modbus.c:32-45 | any odd number of flipped bits changes the CRC |
| Crc16.FrameCheck | main/drivers/sx_modbus.c:254-256 | a message with two more bytes has CRC zero if and only if those are its CRC, low byte first |
| Crc16.DamagedFrameRejected | main/static/web.js:726-736 | a frame that checks fails the check after any burst of up to sixteen bits, trailer included, and after any odd number of flips |
| Hex.DecodeInstructionPayload | main/web/sx_web_server.c:118-173 | computes `Decode`, whose bytes and failures `DecodedAt`, `DecodeOutcome` and `DecodeIgnores` give |
| Hex.DecodedAt | main/web/sx_web_server.c:132-160 | each byte is what the C standard makes of its two characters, cut to eight bits; for digits sixteen times the first plus the second |
| Hex.Strtol2IsStrtol | main/web/sx_web_server.c:157-160 | the model of `strtol` on two characters agrees with one written from the C standard: white space, sign, digits |
| Hex.DecodeOutcome | main/web/sx_web_server.c:118-173 | which failure when: empty or odd text, or which allocation |
| Hex.DecodeIgnores | main/web/sx_web_server.c:138-146 | a space put anywhere and the case of the digits change nothing |
| Hex.DecodeUndoesPrint | main/web/sx_web_server.c:132-160 | the web server decodes whatever the page prints back to the same bytes |
| Hex.ValueOf | main/protocols/sx_tcp_server.c:291-311 | a digit is worth its character code less that of 0, of A plus ten, or of a plus ten |
| Hex.PairOf | main/static/web.js:662-666 | a printed byte is two uppercase digits, sixteen times the first plus the second |
| Hex.ServerHexToBin | main/protocols/sx_tcp_server.c:262-314 | the strict parser: digits only after an optional 0x; cells from `max_len` on stay untouched |
| Hex.ClientHexToBin | main/protocols/sx_tcp_client.c:50-136 | the lenient parser: everything that is not a digit is dropped first |
| Hex.ServerAccepts | main/protocols/sx_tcp_server.c:267-284 | the strict parser takes a text if and only if it is an even number of digits that fit, bare or behind 0x or 0X |
| Hex.ServerReads | main/protocols/sx_tcp_server.c:286-312 | and returns for each pair sixteen times the first digit plus the second |
| Hex.ClientReads | main/protocols/sx_tcp_client.c:76-136 | the lenient one returns the same for the digits left when all else is dropped |
| Hex.CaseIgnored | main/protocols/sx_tcp_client.c:60-128 | both read upper and lower case alike, the prefix included |
| Hex.ServerIsStrictClient | main/protocols/sx_tcp_server.c:262-314 | on every input the strict parser is the lenient one restricted to separator-free text |
| Hex.ParsersReadPrint | main/protocols/sx_tcp_client.c:50-136 | both read back the two-digit print of any byte string that fits, with and without 0x |
| Hex.SeparatorIgnored | main/protocols/sx_tcp_client.c:56-113 | a non-digit put anywhere leaves what the client's parser returns and writes alone if and only if it does not change whether there is a 0x prefix, or the digits are too many either way, or the only digit is the leading zero |
| Hex.LaterSeparatorIgnored | main/protocols/sx_tcp_client.c:76-85 | from position two on a non-digit never matters |
| Hex.SeparatorMakesPrefix | main/protocols/sx_tcp_client.c:60-66 | and before it one can: an x after a leading zero changes the result |
| SerialChunks.ChunkServer.Reset | main/web/sx_web_server.c:94-99 | the context is empty afterwards |
| SerialChunks.ChunkServer.Reserve | main/web/sx_web_server.c:101-116 | room for the required length or a refusal; the stored bytes stay |
| SerialChunks.ChunkServer.AcceptLocked | main/web/sx_web_server.c:205-262 | the part under the lock does exactly `Accept`, which `AcceptedExact`, `RefusalMeans`, `EmissionExact` and `SameIdMeans` pin down |
| SerialChunks.ChunkServer.TxTasks | main/drivers/sx_async_uart.c:502-582 | the data go out if copy, lock, buffer and driver allow; the caller is not told |
| SerialChunks.ChunkServer.ProcessUartChunk | main/web/sx_web_server.c:178-273 | every path: status, context and what goes out, the status being the same whether it does or not |
| SerialChunks.ChunkServer.HandleUartTx | main/web/sx_web_server.c:3030-3100 | a page message is acknowledged exactly when it was decoded and accepted; what goes out then, if the transmission does |
| SerialChunks.SameIdMeans | main/web/sx_web_server.c:208-217 | ids count as one exactly if they are equal or alike in their first 63 characters |
| Uplink.ContextIsPrefix | main/web/sx_web_server.c:205-262 | after any calls from any transfers the context is a gap-free prefix of one transfer, made of the latest calls, whose ids are equal or alike in 63 characters, and fits its capacity |
| Uplink.OnlyWholeTransfers | main/web/sx_web_server.c:244-262 | whatever is emitted is the concatenation of chunks 0..n-1 of one total, the last n calls, nothing foreign in between, all with the id of the last one or, if both have 63 characters or more, one alike in the first 63 |
| Uplink.WholeTransferEmitted | main/web/sx_web_server.c:205-262 | a transfer whose chunks come in order with memory available is emitted in one piece, whatever came before |
| Uplink.EmissionExact | main/web/sx_web_server.c:205-262 | if there was memory for the transfer's own calls, a call emits if and only if it ends n in-order chunks of one transfer, whatever happened to earlier calls |
| Uplink.AcceptedExact | main/web/sx_web_server.c:219-238 | if there was memory, a call is accepted if and only if it is chunk i of a transfer and the i calls before it were its chunks 0 to i-1; a refusal wipes the context |
| Uplink.RefusalMeans | main/web/sx_web_server.c:231-238 | a missing allocation matters only to a call that is in order and does not fit what is reserved |
| Uplink.NextFits | main/web/sx_web_server.c:101-116 | a buffer that had to grow takes the next full chunk without another allocation |
| Uplink.SendChunk | main/static/web.js:750-783 | one round of the page's loop against the server: acknowledged and stored, or transmitted if last |
| Uplink.SendInstructionChunks | main/static/web.js:738-786 | for every payload and every behaviour of the environment the UART gets the whole payload once or nothing; once exactly if the page is told ok and the last transmission goes out; the page is told ok if nothing it would hear of fails |
| Uplink.SerialSubmit | main/static/web.js:832-866 | from typed text to the wire: the typed bytes, with the CRC switch on a frame that checks, go out once if accepted and transmitted; a refused submission transmits nothing |
| Uplink.SubmittedMeans | main/static/web.js:726-736 | what goes out is what was typed, and with the CRC switch on, and only then, the two bytes behind it that make it check |
| Uplink.TypedPrint | main/static/web.js:634-666 | typing what the page prints gives the bytes back |
| Uplink.TypedAt | main/static/web.js:634-660 | typed text is refused exactly if it has no digits or an odd number; otherwise each byte is sixteen times the first digit of its pair plus the second |
| Downlink.SlicesCover | main/web/sx_web_server.c:3141-3160 | the 128-byte slices are the frame: no gap, no overlap |
| Downlink.ChunkTotalLeast | main/web/sx_web_server.c:3144 | as few messages as 128 bytes each allow, one for an empty frame |
| Downlink.PrintChunk | main/web/sx_web_server.c:3162-3170 | the bounded print loop prints the whole chunk |
| Downlink.SendUartToWebsocket | main/web/sx_web_server.c:3136-3215 | queues exactly the messages of the chunks that could be built and queued |
| Downlink.QueuedIff | main/web/sx_web_server.c:3178-3215 | a chunk is queued if and only if there was room for it and no allocation failed for it or before it |
| Downlink.UartPanel.HandleUartDataMessage | main/static/web.js:1021-1059 | the page's handler does exactly `Handle` |
| Downlink.WholeHex | main/static/web.js:1046-1054 | the chunks' texts in order, joined and trimmed, are the text of the whole frame |
| Downlink.TrimMeans | main/static/web.js:1053-1056 | trimming takes the spaces at both ends and nothing else |
| Downlink.ViewTracks | main/static/web.js:1021-1059 | for messages of any frames in any order: a frame's buffer entry is its pending chunks, and each completed round shows the whole frame once |
| Downlink.CompleteFrameShownOnce | main/static/web.js:1021-1059 | chunks in any order, repeated, mixed with other frames: a complete frame is shown exactly once, whole, and its entry is gone |
| Downlink.MissingChunkNeverShown | main/static/web.js:1046-1050 | a frame with a chunk missing is never shown |
| Downlink.LossyFrameNeverShown | main/web/sx_web_server.c:3178-3215 | nor is one some chunk of which the firmware could not queue |
| Downlink.ShownOnceIffAllQueued | main/web/sx_web_server.c:3136-3215 | from the firmware's queue to the page: if a frame's queued messages all arrive, once each, in any order and among any others, it is shown once and whole if every chunk was queued, and otherwise not at all |
| ClientTable.StepKeeps | main/protocols/sx_tcp_server.c:181-377 | every step of every task, sends included, keeps counter, slots and the accounts of every descriptor |
| ClientTable.EveryRunBalanced | main/protocols/sx_tcp_server.c:78-377 | in every interleaving, broadcasts and heartbeats included: the counter is the number of used slots; every accepted socket is in the table, with a task, or was handed to `safe_close_socket`, once per accept; every hand-over is queued or closed once |
| ClientTable.LiveSockets | main/protocols/sx_tcp_server.c:217-259 | sockets in use are open, pairwise different, not queued for closing and not with another task |
| ClientTable.AddDoes | main/protocols/sx_tcp_server.c:217-233 | a socket goes into the first free slot, as a client that has been sent nothing, if fewer than six are counted, and stays with its task otherwise |
| ClientTable.HandOffDoes | main/protocols/sx_tcp_server.c:78-110 | handed over, it waits behind the others if fewer than ten wait and is closed at once otherwise |
| ClientTable.DetachAllDoes | main/protocols/sx_tcp_server.c:181-205 | when all are taken every slot is free and every socket with the task |
| ClientTable.CleanedUp | main/protocols/sx_tcp_server.c:60-76 | as many turns of the cleanup task as sockets wait leave every socket closed as often as it was handed over, and only those in the table or with a task open |
| ClientTable.RestartKeepsIffEmpty | main/protocols/sx_tcp_server.c:208-215 | a restart keeps the accounts exactly when no client is left |
| ClientTable.RestartCanLoseCount | main/protocols/sx_tcp_server.c:208-233 | and one can be: accepted before a stop, added after it |
| ClientTable.StepDisturbsNobody | main/protocols/sx_tcp_server.c:181-377 | a step of another task moves no client, sends no client anything but the traffic allowed for, takes nothing a task holds and takes no hand-over back |
| ClientTable.OthersDisturbNobody | main/protocols/sx_tcp_server.c:349-377 | nor do any number of them while the lock is away |
| TcpServer.Server.SafeCloseSocket | main/protocols/sx_tcp_server.c:78-110 | queued for the cleanup task, or closed at once if the queue is full; a dead descriptor is skipped |
| TcpServer.Server.CleanOne | main/protocols/sx_tcp_server.c:60-76 | one turn of the cleanup task closes the oldest queued socket |
| TcpServer.Server.AddClient | main/protocols/sx_tcp_server.c:217-233 | the first free slot, or -1 exactly when six clients are counted |
| TcpServer.Server.RemoveClient | main/protocols/sx_tcp_server.c:235-259 | unhooks under the lock and hands the socket over once after it, whatever runs in between |
| TcpServer.Server.CloseAllClients | main/protocols/sx_tcp_server.c:181-205 | every socket in the table is handed over, nobody who was there is left, nobody who comes later is touched |
| TcpServer.Server.SendToClient | main/protocols/sx_tcp_server.c:327-344 | the bytes reach the client as a prefix; all of them exactly if `send` lets them through before it fails (`Covers`), otherwise failure is reported and the prefix is what went through before that |
| TcpServer.AgainIgnored | main/protocols/sx_tcp_server.c:333-337 | an answer to call again, put anywhere among the others, changes nothing |
| TcpServer.Server.BroadcastToAllClients | main/protocols/sx_tcp_server.c:349-377 | with slots freed and refilled while the lock is away: every client there before and after got the payload exactly once, unbroken and in order; if nobody else ran, exactly those are gone for whom `send` failed before it had let everything through |
| TcpServer.Server.SendHeartbeat | main/protocols/sx_tcp_server.c:493-515 | one `send` of the packet, as it is or through `hex_to_bin`; when it counts as failed |
| TcpServer.HeartbeatBytesMean | main/protocols/sx_tcp_server.c:493-509 | a plain packet goes out character by character, a hex one as the bytes it is the print of, one `hex_to_bin` refuses not at all |
| TcpServer.BeatMeans | main/protocols/sx_tcp_server.c:500-515 | one call of `send` delivers as much as it says; only an error other than being asked to call again costs the client its place |
| TcpServer.Server.HeartbeatRound | main/protocols/sx_tcp_server.c:487-535 | with broadcasts and others running while the lock is away: every client there before and after got one beginning of the packet, as long as `send` took it, unbroken; if nobody else ran, exactly those are gone for whom it failed |
| ProtocolManager.Manager.StartLocalProtocols | main/protocols/sx_protocol_manager.c:37-79 | UDP first, then the TCP side the configuration names (client if it names none); with an unreadable configuration UDP only; nothing if already started |
| ProtocolManager.Manager.StartExternalProtocols | main/protocols/sx_protocol_manager.c:81-110 | MQTT if wanted; external counts as started only if MQTT runs, so a failed start is tried again |
| ProtocolManager.Manager.StopLocalProtocols | main/protocols/sx_protocol_manager.c:112-125 | UDP, TCP client and server are all stopped and their flags cleared; nothing if none is on |
| ProtocolManager.Manager.StopExternalProtocols | main/protocols/sx_protocol_manager.c:127-136 | MQTT is stopped and both flags cleared; nothing if neither is on |
| ProtocolManager.Manager.HandleNetworkState | main/protocols/sx_protocol_manager.c:146-183 | for every pair of states the right starts and stops, external stopped before local, repeated notices included (`OnNetworkState`) |
| ProtocolManager.TransitionKeeps | main/protocols/sx_protocol_manager.c:146-183 | told of every change, the flags follow the network state and are what the log of calls says (`Watch`), TCP server and client are never both on, external means MQTT |
| ProtocolManager.WatchedThroughout | main/protocols/sx_protocol_manager.c:37-136 | at every moment of the log no call is out of turn: MQTT runs, or fails to start, only while UDP runs, one TCP side at a time, and the flags are what the log says |
| ProtocolManager.DownStopsAll | main/protocols/sx_protocol_manager.c:158-163 | going down stops MQTT first if it runs, then UDP and both TCP sides, and calls nothing else |
| ProtocolManager.WhateverRuns | main/protocols/sx_protocol_manager.c:37-183 | the same for protocols in any state, in step or not: what going down stops, what a repeated notice repairs, when MQTT is tried |
| ProtocolManager.UnbrokenAlternates | main/protocols/sx_protocol_manager.c:37-136 | what the phase of a log means: starts and stops strictly alternate, beginning with a start |
| NetworkManager.Manager.SyncLegacyFlags | main/network/sx_network_manager.c:79-86 | the old globals say what the status says |
| NetworkManager.Manager.SetNetworkState | main/network/sx_network_manager.c:88-105 | the new state, the flags with it, whether and from what it changed |
| NetworkManager.Manager.ApplyVerdict | main/network/sx_network_manager.c:310-323 | the result is written down, the flags follow, the protocols are told |
| NetworkManager.Manager.EvaluateCurrentState | main/network/sx_network_manager.c:288-324 | snapshot, check, re-lock, discard: exactly `Evaluate`, whatever the status has become meanwhile |
| NetworkManager.VerdictFromBase | main/network/sx_network_manager.c:235-286 | a verdict depends on the compared fields only; up exactly if the interface is ready, for Wi-Fi with a gateway that answers, external exactly if the internet answers then |
| NetworkManager.Manager.HandleEvent | main/network/sx_network_manager.c:326-431 | for every event the new status, old globals and protocols, with or without a check (`Handle`, read off the events by `StatusReadOff`, `AddressKept`, `AddressGone` and `EventDecides`) |
| NetworkManager.StatusReadOff | main/network/sx_network_manager.c:337-404 | over every run: interface, connection and address flags and static address are what the last event that bears on each of them said |
| NetworkManager.AddressKept | main/network/sx_network_manager.c:54-60 | over every run address, netmask and gateway are those of the last event that brought some, unless a later one took them away |
| NetworkManager.AddressGone | main/network/sx_network_manager.c:70-77 | after a boot, a loss of Wi-Fi, or of Ethernet without a static address there are none until an event brings some |
| NetworkManager.EventDecides | main/network/sx_network_manager.c:235-276 | what each event makes of the network state: for a Wi-Fi address up exactly if the gateway in the event is one and answers, external exactly if the internet answers too |
| NetworkManager.SameBaseMeans | main/network/sx_network_manager.c:278-286 | a status that differs from the snapshot in anything but reports and netmask discards the result |
| NetworkManager.AppliedOnlyIfCurrent | main/network/sx_network_manager.c:278-324 | a verdict is applied exactly when the compared fields still are what was checked; then it is the verdict on the status as it is, nothing else in it changes, and the protocols are told |
| NetworkManager.EvaluateKeeps | main/network/sx_network_manager.c:288-324 | a check keeps protocols and state in step whatever other tasks do to the base fields meanwhile |
| NetworkManager.BootKeepsIffDown | main/network/sx_network_manager.c:338-345 | a boot event keeps things in step exactly when the network was down |
| NetworkManager.LateBootBreaks | main/network/sx_network_manager.c:338-345 | a run in which a boot event leaves protocols running in a network that is down |
| NetworkManager.EveryRunGood | main/network/sx_network_manager.c:326-431 | over every run with boot at most first: down means all protocols off, up means local ones on, MQTT only when external, external exactly when the ping worked, flags agree |
| NetworkManager.EveryRunAlternates | main/protocols/sx_protocol_manager.c:37-183 | over the same runs UDP starts and stops strictly alternate, and so do successful MQTT starts and stops |
| NetworkManager.WifiOnlyRuns | main/network/sx_network_manager.c:235-259 | without Ethernet events the network is up if and only if Wi-Fi has an address, not taken away since, and the gateway that came with it answered the last check |
| NetworkManager.UpRunsConfigured | main/protocols/sx_protocol_manager.c:37-110 | what runs after a check finds the network up: the TCP side chosen once, when it comes up; MQTT retried at every check until it runs, and only while external |
| UartFraming.Receiver.ReadUart | main/drivers/sx_async_uart.c:781-800 | takes over what the driver has left and what fits |
| UartFraming.Receiver.CutFrame | main/drivers/sx_async_uart.c:802-863 | cuts on full or on silence; the branch that shifts left-over bytes is dead |
| UartFraming.RxTask | main/drivers/sx_async_uart.c:740-871 | the task's loop over any ticks produces exactly the frames of `Run`; the fallbacks for settings that are not positive |
| UartFraming.BytesConserved | main/drivers/sx_async_uart.c:767-864 | frames and partial buffer, in this order, are everything read; bytes read and unread are what arrived with the flushed bytes left out, so all of it exactly if no flush found anything |
| UartFraming.FlushTearsFrame | main/drivers/sx_async_uart.c:502-513 | a run in which a transmission between two reads makes a frame that never was on the line |
| UartFraming.BufferState | main/drivers/sx_async_uart.c:802-863 | between turns the buffer is never full and the flag tells whether it is empty |
| UartFraming.FramesWellCut | main/drivers/sx_async_uart.c:802-820 | every frame has 1..max bytes, and one shorter than max was cut only after the interval had passed since every earlier read |
| UartFraming.CutsPromptly | main/drivers/sx_async_uart.c:802-820 | a turn cuts exactly when the buffer is full or the silence long enough |
| UartPipeline.EveryBlockOnce | main/drivers/sx_async_uart.c:610-711 | in every interleaving each heap block is in one place, queued, with a task or freed once, unless it was in the forwarding task's hands when that was deleted |
| UartPipeline.LeakIffStoppedHolding | main/modes/mode_tcp_transparent.c:134-151 | over every run: some block is allocated, not freed and nowhere any more if and only if some stop of the mode found its task holding a message |
| UartPipeline.StopCanLeak | main/modes/mode_tcp_transparent.c:88-151 | a run that ends so, for every frame |
| UartPipeline.ForwardedInOrder | main/modes/mode_tcp_transparent.c:64-107 | what reaches TCP is a subsequence of the frames cut, in order, none twice, each its first 4096 bytes |
| UartPipeline.FrameQueuedIff | main/drivers/sx_async_uart.c:823-845 | a frame gets into the first queue exactly if its copy is allocated and fewer than twenty messages wait |
| UartPipeline.FrameHandedOnIff | main/modes/mode_tcp_transparent.c:64-86 | and into the second one exactly if the mode is running, it is not empty, its copy is allocated and fewer than ten wait |
| UartPipeline.FramesConserved | main/modes/mode_tcp_transparent.c:64-107 | over every run the frames cut are those forwarded, those on their way and those lost, each loss being one of the kinds counted; without one, forwarded and on its way are exactly all frames cut, in order |
| UartPipeline.BacklogForwarded | main/drivers/sx_async_uart.c:641-711 | left to themselves the two tasks get everything that waits across, in order |
| UartPipeline.PurgeKeepsNewest | main/drivers/sx_async_uart.c:611-633 | however purging interleaves with arrivals and a drain, only the oldest go, no more than were to be discarded and were drained; without a drain the newest five stay with everything newer |
| UartTasks.Tasks.QueueFrame | main/drivers/sx_async_uart.c:823-845 | copy and queue, or drop and free |
| UartTasks.Tasks.PurgeBacklog | main/drivers/sx_async_uart.c:610-633 | the purge loop, other tasks running before every discard, `stop_rx_task` included: the newest five stay at the head but for as many as were drained |
| UartTasks.Tasks.ReceiveAndProcess | main/drivers/sx_async_uart.c:641-711 | one turn of the processing task is receive, process, release, with anything in between |
| UartTasks.Tasks.OnUartData | main/modes/mode_tcp_transparent.c:64-86 | copy into the second queue, or drop and free; which of them by `FrameHandedOnIff` |
| UartTasks.Tasks.ForwardOne | main/modes/mode_tcp_transparent.c:88-107 | one turn of the forwarding task is receive, send, free, with anything in between |
| UartTasks.Tasks.DrainQueue | main/drivers/sx_async_uart.c:944-952 | frees everything left in the queue |
| UartTasks.Tasks.StopTcpTransparent | main/modes/mode_tcp_transparent.c:134-151 | frees everything left in the second queue; what the task held is nobody's any more |
| UartStream.ForwardedSlices | main/modes/mode_tcp_transparent.c:88-107 | from the driver to TCP: every payload sent is an unbroken slice of the bytes read, the slices follow each other without overlap, and they are slices of what came in on the line if no flush found anything |
| SlidingLog.SlideIsWindow | main/system/sx_log.c:82-95 | sliding one line in keeps exactly the last 1024 characters |
| SlidingLog.StoredIsWindow | main/system/sx_log.c:28-99 | over any run of log calls and clears the buffer is the last 1024 characters of everything accepted since the last clear |
| SlidingLog.CompleteIffShort | main/system/sx_log.c:82-95 | nothing is missing exactly while that text is no longer than the buffer |
| SlidingLog.NewestLineWhole | main/system/sx_log.c:82-95 | the newest line is always there in full, at the end |
| SlidingLog.AcceptedMeans | main/system/sx_log.c:53-71 | an accepted text is kept as it is and set off by a newline unless it has one or there is no room; which texts add nothing |
| SlidingLog.EndsInNewline | main/system/sx_log.c:53-95 | over any run the buffer ends in a newline, unless a text of 255 characters came without one |
| SlidingLog.DetailedLog.LogOutput | main/system/sx_log.c:28-99 | the array holds the window after the call; what goes to the web socket |
| SlidingLog.DetailedLog.Append | main/system/sx_log.c:82-95 | the in-place move and copy do exactly `Slide` and leave a terminator |
| SlidingLog.DetailedLog.ClearLog | main/system/sx_log.c:151-159 | the history starts afresh |
| SlidingLog.DetailedLog.GetBuffer | main/system/sx_log.c:123-134 | if no call logged a NUL, the C string read back is the window of the text; nothing exactly when the buffer is empty |
| WifiRetry.Station.LookAround | main/network/sx_init_wifi.c:324-436 | the decision part of a turn: three back-off tiers, the connected and the idle branch |
| WifiRetry.Station.TryConnect | main/network/sx_init_wifi.c:355-374 | after the delay: an attempt stamped with the earlier reading, unless paused meanwhile |
| WifiRetry.Station.RetryTurn | main/network/sx_init_wifi.c:319-442 | one turn of the task with handlers running during the delay and after it |
| WifiRetry.Station.OnDisconnected | main/network/sx_init_wifi.c:477-514 | timestamps are set on the first disconnect only; a pause ends |
| WifiRetry.Station.ResumeReconnect | main/network/sx_init_wifi.c:115-133 | resuming restarts the interval if a connection is wanted |
| WifiRetry.AttemptBounds | main/network/sx_init_wifi.c:347-411 | over every run, pauses and deletion of the task included: at most 59 attempts in the first ten minutes of an outage (60 if it began with one under way that was made), 100 in the rest of the hour, then 1 + (T - 3600) / 120 |
| WifiRetry.CarriedIff | main/network/sx_init_wifi.c:347-374 | read off the events: an attempt counted for an outage was decided on before it exactly if the outage began during the delay and the attempt was then made |
| WifiRetry.BoundsMet | main/network/sx_init_wifi.c:347-376 | runs with exactly 59 and exactly 60 |
| WifiRetry.TriesOften | main/network/sx_init_wifi.c:347-376 | and not too few: if the task looks at least every p ms, an outage below ten minutes is shorter than attempts * (10 s + p) + 10 s |
| WifiRetry.LookMeans | main/network/sx_init_wifi.c:324-436 | when a look decides on an attempt, in milliseconds for the three tiers; when it finds a connection or begins an outage; that it changes nothing else |
| WifiRetry.PausedIff | main/network/sx_init_wifi.c:99-133 | over every run reconnecting is paused exactly if some pause was followed by neither a resume nor a disconnect |
| WifiRetry.NoneWhilePaused | main/network/sx_init_wifi.c:355-374 | no attempt is made while it is |
| WifiRetry.RestAfterResume | main/network/sx_init_wifi.c:115-133 | after a resume that finds a connection wanted, whatever happens, no attempt is decided on for ten seconds |
| ModbusPoll.SlicesSum | main/drivers/sx_modbus.c:19-29 | a delay's slices add up to the delay, each 1 to 500 ms |
| ModbusPoll.ModbusDelayWithWdt | main/drivers/sx_modbus.c:19-29 | sleeps exactly the slices, or the first of them up to a stop |
| ModbusPoll.AwaitResponse | main/drivers/sx_modbus.c:273-283 | waits at most the timeout, and all of it if neither answered nor stopped |
| ModbusPoll.StopRxTask | main/drivers/sx_async_uart.c:884-931 | waits for room for the wake-up message, then ten milliseconds for every look, up to a hundred, that finds a UART task, and no longer |
| ModbusPoll.ReinitFloor | main/drivers/sx_async_uart.c:472-500 | a reinitialisation sleeps ten milliseconds at least, and just those exactly if both locks are free, the wake-up messages find room and no task is still there |
| ModbusPoll.ReinitCeiling | main/drivers/sx_async_uart.c:472-500 | and 3.41 seconds at most, exactly if every wait takes its limit and a task is seen at every look |
| ModbusPoll.IdleReinit | main/drivers/sx_async_uart.c:884-931 | on an idle line it sleeps more than half a second |
| ModbusPoll.ExitDelayIff | main/drivers/sx_async_uart.c:610-724 | told to stop, the processing task waits half a second more exactly if its queue, once purged, holds no frame it can handle; an empty message or a skipped frame does not make it look |
| ModbusPoll.ExitDelayMeans | main/drivers/sx_async_uart.c:610-724 | in numbers: of more than fifteen messages only the newest five count, more than eighteen cost 50 ms first, and the half second follows if no frame among them can be handled |
| ModbusPoll.PollTimeBudget | main/drivers/sx_modbus.c:83-120 | the loop computes the interval in force |
| ModbusPoll.AdjustedMeans | main/drivers/sx_modbus.c:103-110 | the interval in force is the configured one if that is at least the total and a second, otherwise exactly these |
| ModbusPoll.RegularSlack | main/drivers/sx_modbus.c:83-120 | for timeouts in range and positive intervals a cycle's waits leave at least a second, whatever was configured |
| ModbusPoll.SlackIffTotals | main/drivers/sx_modbus.c:103-120 | for arbitrary templates the second is there at every configured interval exactly when the configured total is positive and not below the total used |
| ModbusPoll.ShortTimeoutOverruns | main/drivers/sx_modbus.c:266-270 | one template with a 50 ms timeout leaves 50 ms instead of a second |
| ModbusPoll.CycleFitsIff | main/drivers/sx_modbus.c:83-120 | with all sleeps counted, regular templates fit every poll interval if and only if reinitialising, settling and sending take at most a second and what is reserved for templates that never send |
| ModbusPoll.SixteenAtMost | main/drivers/sx_modbus.c:220-224 | more than sixteen usable templates do not fit every interval, and up to sixteen do if every sleep is at its least |
| ModbusPoll.TwoOverrunIdleLine | main/drivers/sx_modbus.c:220-224 | on an idle line two usable templates already take longer than the least interval |
| ModbusPoll.BuildRequest | main/drivers/sx_modbus.c:246-256 | the eight bytes are `Request` |
| ModbusPoll.RequestReads | main/drivers/sx_modbus.c:225-256 | a request checks and tells the station, function, register and count it was built from |
| ModbusPoll.PollItem | main/drivers/sx_modbus.c:166-290 | which templates send what; time slept at most, and exactly if unanswered, its share of the cycle, `uart_reinit` included |
| ModbusPoll.PollCycle | main/drivers/sx_modbus.c:165-291 | requests in template order, up to a stop; the time slept never exceeds the templates' shares, and is their sum if unanswered |
| ModbusPoll.ModbusPollTask | main/drivers/sx_modbus.c:146-307 | every cycle begins when the one before has ended but not before the interval is over; if all fit, at exactly the interval in force |
| WorkMode.WorkModes.FindMode | main/system/sx_work_mode.c:15-28 | the registered mode of that name; none for an empty name |
| WorkMode.WorkModes.RegisterMode | main/system/sx_work_mode.c:30-50 | turns down a mode without name or start hook, keeps the first of a name, refuses a ninth |
| WorkMode.WorkModes.RegisterBuiltinModes | main/modes/sx_builtin_modes.c:7-50 | both built-in modes once, tried again as long as one does not fit |
| WorkMode.WorkModes.StartByName | main/system/sx_work_mode.c:52-90 | unknown names are not found, the active mode stays, another one is stopped first, a failed start leaves none active |
| WorkMode.WorkModes.StopCurrent | main/system/sx_work_mode.c:92-106 | no mode is active afterwards; its stop hook is called if it has one |
| WorkMode.FindFinds | main/system/sx_work_mode.c:15-28 | a mode of that name if there is one, none only if there is none |
| WorkMode.RegisterMeans | main/system/sx_work_mode.c:30-50 | which registration is turned down, changes nothing, does not fit or is added, in terms of the names registered |
| WorkMode.BuiltinsThere | main/system/sx_work_mode.c:52-60 | after a start by any name both built-in modes are registered, or the registry is full |
| WorkMode.StartMeans | main/system/sx_work_mode.c:52-90 | a start finds a mode exactly if one of that name is registered, leaves the active one alone, and otherwise stops it, starts the one found and makes it active exactly if that worked |
| WorkMode.EveryRunPaired | main/system/sx_work_mode.c:30-106 | over every run names are unique and at most eight, start and stop hooks come in pairs, the active mode is the one started last |
| WorkMode.OneModeRuns | main/system/sx_work_mode.c:52-106 | never more than one mode runs, one exactly while a mode with a stop hook is current |
| Led.Leds.NoticeChanges | main/system/sx_timer_tasks.c:119-155 | the counters start over with every change of a flag that is seen, each read on its own |
| Led.Leds.Flash | main/system/sx_timer_tasks.c:169-233 | one step of the cycle of twenty; the default branch is dead |
| Led.Leds.TimeSyncLedCallback | main/system/sx_timer_tasks.c:109-258 | for any reads the callback does exactly `Next` to stored flags, cycle and LEDs |
| Led.RunLeds | main/system/sx_timer_tasks.c:109-258 | over any run of reads the LEDs after every callback are those of `Run` |
| Led.SteadyShows | main/system/sx_timer_tasks.c:109-258 | at every callback of any run, while flags keep still during callbacks: the active LED is on as flags and time since their last change say, in intranet mode at tick t exactly if t mod 20 is 0 or 2, the other one off |
| Led.BothIff | main/system/sx_timer_tasks.c:157-258 | both LEDs are on after a callback if and only if the interface changes between its last two reads, the LED not switched off is on before, and flags and cycle before it call for light |
| Led.BothHappens | main/system/sx_timer_tasks.c:157-258 | a run that ends so |

## Left out

- Uplink.SendInstructionChunks: the page learns every answer; an acknowledgement lost on the way is not modelled. No other page's chunks come in between; arbitrary mixtures are the subject of `OnlyWholeTransfers` and `EmissionExact`.
- Uplink.SerialSubmit: hex mode only; in text mode the page decodes each 512-byte cut on its own, which can change bytes.
- SerialChunks.ChunkServer.ProcessUartChunk: asks that stored bytes and new chunk together stay below 2^32; both are live heap blocks of a 32-bit machine.
- SerialChunks.ChunkServer.HandleUartTx: the JSON around the fields is not modelled.
- Downlink.UartPanel.HandleUartDataMessage: the hex column only; timestamps, the text column and the limit on displayed lines are left out.
- Downlink.CompleteFrameShownOnce: frames are told apart by capture time and direction; two captured in the same microsecond would share a key, and a capture time of zero, for which the page falls back on its own clock, is not modelled.
- Hex.FillPairs: the loop that the two C files each have a copy of is written once.
- TcpServer.Server.SendToClient: the list of `send`'s answers is finite; a client that asks to be called again for ever is not modelled.
- TcpServer.Server.BroadcastToAllClients: the lock is always retaken; in the branch where it is not, the caller gives back a lock it does not hold. Broadcasts exclude each other by `tcp_send_mutex`.
- TcpServer.Server.RemoveClient: which client an exiting task removes goes by slot number, as in the code; that the slot may have been refilled meanwhile is allowed for, and the accounts still hold.
- TcpServer.Server.HeartbeatRound: deleting the heartbeat task while it holds the lock is not modelled; a start finds an empty table.
- NetworkManager.EveryRunGood: the status is written by the event loop only; changes by other tasks during a check are the subject of `EvaluateKeeps` and `AppliedOnlyIfCurrent`.
- UartTasks.Tasks.StopTcpTransparent: stopping is one step; a frame handed to the mode in its middle is not modelled.
- UartTasks.Tasks.PurgeBacklog: the low-memory timer in `main/app/sx_main.c` that also empties the queue (and takes out one message more than it frees) is excluded.
- SlidingLog.DetailedLog.Append: the terminator may land one cell past the C buffer; the model's array has that cell.
- WifiRetry.AttemptBounds: counts the retry task's attempts by the reading that decided on them; the attempts of the event handlers are not counted.
- ModbusPoll.PollTimeBudget: totals are mathematical integers; 32-bit overflow for absurd configurations is not modelled, nor is writing the interval back to NVS.
- ModbusPoll.ModbusPollTask: time is what the code asks to sleep or wait; computing and the driver's own calls take none, rounding to ticks of 10 ms is not modelled (the pauses in `tx_tasks`, an argument, can all round to nothing), and the low-memory exit is left out.
- WifiRetry.Station.OnDisconnected: the handlers' writes to flag and timestamps are one step each; a retry task that runs between two of them is not modelled.
- The simple log, the captive DNS parser, OTA, HTTP handlers, MQTT and HTTP clients, login, key scanning and floating-point register conversions.
- ESP-IDF, FreeRTOS, lwIP, cJSON and NVS beyond what the code relies on: bounded first-in first-out queues, locks, a `send` that takes a prefix.
