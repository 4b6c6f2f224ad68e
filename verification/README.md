# Zone controller verification

A vehicle zone controller prototype: a Python program on the MPU watches the driver's eyes and
talks SOME/IP and SOME/IP-SD to a Zephyr C++ program on the MCU, which drives a CAN-FD bus and
falls into a heartbeat-supervised safe state. This project models the parts of it that carry
unbounded behaviour and proves what they guarantee, and where they do not guarantee what their
documentation says.

- `Bytes`, `Protocol`: big-endian integers, the event packet and its parser.
- `StreamParsing`, `Segmentation`, `Framing`, `NotifyStream`, `Reception`: frame reassembly from a
  timed byte stream (Python), and what arrives of the packets that were sent.
- `UartReceiving`: the MCU's own copy of the reassembly, over a fixed 64-byte array, simulated by
  the Python one on every line. `Resync`: exactly when the two timeouts agree.
- `Crc`, `CanGateway`: the E2E checksum, what it detects, and the CAN-FD frames.
- `Drowsiness`, `Mailbox`: the eye-closure counter and the two-thread mailbox to the CAN bus.
- `Safety`: safe state, timer and hardware watchdog as a timed state machine.
- `SdMessages`, `SdRoundTrip`: Python's service discovery messages. `McuSd`, `McuSdParser`: the
  MCU's builders and parser, in place. `SdRefinement`: the two parsers against each other. `SdWire`:
  built messages and both parsers byte by byte.
- `Discovery`, `Reactions`: the MCU's reaction to discovery messages and its UDP receiver, and what
  they do and send told from the bytes.
- `SdResults`, `SdServing`: what Python's discovery client collects, told from the messages by
  position; its loops and the offering server.
- `Systems`: line, receiver, watchdog, mailbox and counter together. `Subsequences`: a helper.

Time is integer milliseconds, read from the clock where the code reads it: a fed byte carries both
clock readings of `feed`, an MCU line is a sequence of idle checks and received bytes. Sending
appends to a trace. Class methods are proved equal to functions of the old state; the lemmas are
about those functions.

## Findings

- Padding is not discarded (docstring, mpu/someip/protocol.py:100-102): the parser consumes the frame
  only, so the padding of a packet becomes the head of the next frame. A packet after a padded one is
  delivered exactly when an idle gap separates them (`Framing.DeliveredIff`); one-byte packets without
  gaps deliver the first of them and never realign (`NotifyStream.GaplessDeliversOne`).
- Heartbeats are 50 ms apart and the receivers resynchronise after more than 50 ms. Over UART, with
  silences of at most 50 ms, one heartbeat is received and the MCU runs for at most 300 ms
  (`Systems.HeartbeatsStarve`).
- The two receivers drop a stale frame at different moments (docstring, mpu/someip/protocol.py:94): Python
  at the next byte, the MCU at an idle check, which its loop makes once before the reads of each pass and
  after each 10 ms sleep (MCU/src/someip_service.cpp:72-113). With `hold` the longest time the thread is
  held up between that check and a read, or between two reads of a pass, and Python given the MCU's read times, they behave the same under
  every schedule of the loop if and only if no silence inside a partial frame lies in (50, 50 + hold]
  (`Resync.SameTimeoutIff`); without hold-ups always (`Resync.PromptReadsAgree`). Against a Python parser
  that takes each byte as it arrives, where the MCU reads it up to `wait` ms later, the window is
  (50 - wait, 50 + hold + wait] (`Resync.SameArrivalIff`).
- The SAFE branch that is to keep the watchdog fed (MCU/src/safety.cpp:35-41) is dead with the shipped
  100 ms and 150 ms while the watchdog is ready: the reset comes first (`Safety.SafeBranchIff`,
  `Safety.ShippedConfiguration`).
- The alive counter of a CAN frame lies outside its checksum (`CanGateway.FrameProtection`).
- A Notify that arrives between the CAN thread's get and its clear is lost (`Mailbox.WipedByClear`).
- Python's client lists a service that has been withdrawn (`SdServing.WithdrawnStaysListed`), and a bare 16-byte
  SD header makes it fail with an IndexError (`SdServing.CrashIff`).
- The MCU's `session_id` counters pass through 0, so its 65536th Subscribe carries session 0
  (`Discovery.SessionZero`); Python's server skips 0 (`SdServing.EveryOffer`).

## Model

| member | source | states |
|---|---|---|
| Bytes.RoundTrip16 | MCU/src/someip_sd.cpp:18-21 | put_u16 and get_u16 are inverse on every 16-bit value |
| Bytes.RoundTrip24 | mpu/someip/sd.py:52-54 | the three TTL bytes decode to the TTL, for every 24-bit value |
| Bytes.RoundTrip32 | MCU/src/someip_sd.cpp:23-28 | put_u32 and get_u32 are inverse on every 32-bit value |
| Bytes.FromBytesWidths | mpu/someip/sd.py:181-208 | Python's variable-length int.from_bytes reads the same numbers as the MCU's get_u16, 24-bit TTL and get_u32 |
| Protocol.PadLength | mpu/someip/protocol.py:57-59 | fewer than 8 bytes of padding, and they align any length to 8 |
| Protocol.FrameFields | mpu/someip/protocol.py:35-60 | every header field stands at the offset both receivers read, whatever follows the frame |
| Protocol.ParseRoundTrip | mpu/someip/protocol.py:73-88 | parse_event undoes build_packet for every event id, payload and session, with any bytes behind the frame |
| Protocol.PacketAligned | mpu/someip/protocol.py:56-60 | packets are multiples of 8 bytes, and carry no padding exactly when the payload is a multiple of 8 |
| Protocol.OneByteEvents | mpu/someip/protocol.py:63-70 | notify levels and heartbeat counters arrive modulo 256 under event ids 0x8001 and 0x8002, in 24-byte packets |
| Protocol.ParseEventExact | mpu/someip/protocol.py:73-88 | parse_event on every byte string, told from the bytes: which of the four errors, or which event |
| StreamParsing.StreamParser.constructor | mpu/someip/protocol.py:108-111 | a fresh parser holds nothing |
| StreamParsing.StreamParser.Reset | mpu/someip/protocol.py:113-116 | a reset parser is like a fresh one |
| StreamParsing.StreamParser.Feed | mpu/someip/protocol.py:118-151 | one byte, in any state: the result and the whole new state are those of the specification function |
| StreamParsing.StreamParser.FeedBytes | mpu/someip/protocol.py:153-160 | the events of many bytes are those of the bytes one by one, and the parser invariant is kept |
| StreamParsing.ReachableValid | mpu/someip/protocol.py:118-151 | buffer bound: fewer than 40 bytes are ever held, and a held header announces a legal, still incomplete frame |
| StreamParsing.FeedAllConcat | mpu/someip/protocol.py:153-160 | how a stream is cut into feed_bytes calls does not matter |
| Segmentation.TilingDecides | mpu/someip/protocol.py:118-160 | completeness: whatever way a stream can be cut into timed-out runs, closed frames and a rest, the parser emits exactly the valid frames of that cut, in order, and holds exactly the rest |
| Segmentation.Soundness | mpu/someip/protocol.py:118-160 | every timed byte stream has such a cut: each byte is in one emitted frame, one discarded run or the buffer, and every event is witnessed by a gap-free run that parse_event accepts |
| Segmentation.Hold | mpu/someip/protocol.py:130-144 | a run without over-long pauses that completes nothing is collected in full |
| Segmentation.RunToClose | mpu/someip/protocol.py:136-151 | a run that reaches a bad length or a whole frame empties the buffer and yields that frame's event or none |
| Segmentation.StaleRestart | mpu/someip/protocol.py:124-128 | after an over-long gap the parser behaves like a fresh one |
| Framing.OnePacket | mpu/someip/protocol.py:118-160 | a packet from a clean start is delivered and leaves just its padding pending |
| Framing.RoundTrip | mpu/someip/protocol.py:35-60 | framing round trip from any reachable state: any list of packets with up to 24 payload bytes, with an idle gap before the first and after each padded one, is delivered exactly, in order |
| Framing.NextPacketLost | mpu/someip/protocol.py:57-60 | a packet that starts while padding is pending is never delivered, for any payload length |
| Framing.DeliveredIff | mpu/someip/protocol.py:98-103 | the second of two packets is delivered if and only if the first needs no padding or an idle gap separates them |
| Framing.EmittedBound | mpu/someip/protocol.py:136-151 | every event's frame lies within the pending and the new bytes |
| NotifyStream.NotificationBytes | mpu/someip/protocol.py:35-70 | a one-byte packet, byte by byte |
| NotifyStream.FromSeven | mpu/someip/protocol.py:136-151 | seven pending padding bytes turn the next packet into a 26-byte frame of service 0 and leave five zeros |
| NotifyStream.FromFive | mpu/someip/protocol.py:136-140 | five pending zeros move the service id into the length field; thirteen bytes stay pending |
| NotifyStream.FromTail | mpu/someip/protocol.py:136-140 | thirteen pending bytes meet two bad lengths and leave five zeros: the cycle closes |
| NotifyStream.ReceivedExactly | mpu/someip/protocol.py:118-160 | of any stream of one-byte packets without over-long pauses inside them, exactly those are received that an idle gap, or the start, precedes |
| NotifyStream.GaplessDeliversOne | mpu/someip/protocol.py:98-103 | without gaps any number of one-byte packets delivers exactly the first |
| Reception.OnlyAligned | mpu/someip/protocol.py:35-60 | no window of a stream of one-byte packets that starts inside a packet has both the service id and a legal length, whatever the event ids and sessions |
| Reception.HeldWindow | mpu/someip/protocol.py:124-151 | for any stream: what is held are the last bytes fed, a run without over-long pauses that began at a clean start |
| Reception.EventWindow | mpu/someip/protocol.py:136-151 | for any stream: a byte that yields an event ends a whole frame that began at a clean start without an over-long pause |
| Reception.HeardExactly | mpu/someip/protocol.py:118-160 | under any timing, pauses inside packets included, exactly those one-byte packets are received that begin at a clean start and have no over-long pause in their 17 frame bytes; nothing else is ever emitted |
| Reception.NoneInvented | mpu/someip/protocol.py:118-160 | under any timing the emitted events are a subsequence of the events sent: none invented, duplicated or reordered |
| Reception.AllHeard | mpu/someip/protocol.py:118-160 | with an over-long silence before each packet and none inside a frame, all are received, whatever the padding does |
| Reception.ApartTicks | mpu/someip/protocol.py:118-160 | those events come at the 17th byte of each packet |
| UartReceiving.UartReceiver.constructor | MCU/src/someip_service.cpp:61-63 | the statics start empty |
| UartReceiving.UartReceiver.Accept | MCU/src/someip_service.cpp:81-112 | one byte into the array, overflow branch included: the new buffer, length, tick and result of the specification function |
| UartReceiving.UartReceiver.CheckIdle | MCU/src/someip_service.cpp:73-78 | the idle check drops a partial frame and nothing else |
| UartReceiving.UartReceiver.Receive | MCU/src/someip_service.cpp:71-115 | a call checks before the reads of every pass, stops right after the byte that yields the first event or takes the whole line, and leaves for the next call the state that piece of line leads to |
| UartReceiving.RxByteExact | MCU/src/someip_service.cpp:81-112 | one byte in any state, told from the bytes: stored, dropped from a full buffer, or closing a frame, and which event |
| UartReceiving.NeverOverflows | MCU/src/someip_service.cpp:83-86 | after any line traffic fewer than 40 of the 64 bytes are in use: the overflow branch is dead |
| UartReceiving.RxSimulates | MCU/src/someip_service.cpp:87-111 | array code and Python code agree on a byte; for a frame without payload the MCU reports the stale byte 16 |
| UartReceiving.Noticed | MCU/src/someip_service.cpp:73-82 | every line has clock readings that show just the silences an idle check noticed |
| UartReceiving.Simulation | MCU/src/someip_service.cpp:71-115 | on every line the MCU emits the event ids of the Python parser fed with those readings, with its byte at the head of each non-empty payload, and the buffers stay equal |
| UartReceiving.SameExactly | MCU/src/someip_service.cpp:71-115 | for every line and any clock readings: MCU and Python emit the same events and hold the same bytes after every byte if and only if, inside partial frames, the readings show a gap exactly where an idle check noticed a silence |
| UartReceiving.IdleTimely | MCU/src/someip_service.cpp:73-78 | with a clock that does not run back, a silence has been noticed if and only if the last item of the line came more than 50 ms after it began |
| Resync.NoticedInPass | MCU/src/someip_service.cpp:72-113 | in a run of the loop, a noticed silence was longer than 50 ms at the next read, an unnoticed one at most 50 ms plus the hold-up |
| Resync.SameTimeoutIff | MCU/src/someip_service.cpp:72-113 | for the reads of any run of the loop: every schedule of the loop over them behaves like Python with the same clock readings if and only if no silence inside a partial frame lies in (50, 50 + hold] |
| Resync.PromptReadsAgree | MCU/src/someip_service.cpp:72-113 | a loop that is not held up between its check and its reads behaves like Python on every line |
| Resync.LateRead | MCU/src/someip_service.cpp:72-113 | for every gap in (50, 50 + hold] and any two bytes, a run of the loop after which the MCU holds both and Python the second |
| Resync.ArrivalsAgree | mpu/someip/protocol.py:91-160 | against a Python parser that takes bytes as they arrive: the same events and bytes throughout, unless a silence inside a partial frame lies in (50 - wait, 50 + hold + wait] |
| Resync.SameArrivalIff | mpu/someip/protocol.py:91-160 | for any two bytes and every gap between their arrivals: all schedules treat them as Python does if and only if the gap is outside that window |
| Crc.ComputeCrc8 | MCU/src/can_gateway.cpp:7-17 | the nested loops compute the register function of the whole message |
| Crc.StandardVectors | mpu/someip/protocol.py:22-32 | two known answers from the AUTOSAR CRC Library, section "8-bit SAE J1850 CRC Calculation", pin polynomial, initial value and final XOR |
| Crc.RegisterConcat | mpu/someip/protocol.py:22-32 | the checksum can be continued over a second part |
| Crc.AbsorbBijective | mpu/someip/protocol.py:26-31 | a message byte maps different register states to different ones |
| Crc.CrcAffine | mpu/someip/protocol.py:22-32 | affine over the XOR of equal-length messages, at every length |
| Crc.CollideIff | mpu/someip/protocol.py:22-32 | two messages share a checksum if and only if their difference has syndrome zero |
| Crc.BurstDetected | mpu/someip/protocol.py:22-32 | any difference within eight consecutive bits, across a byte boundary too, changes the checksum, at every length |
| Crc.ByteDetected | mpu/someip/protocol.py:22-32 | any difference in one byte changes the checksum, at every length |
| Crc.Order | MCU/src/can_gateway.cpp:11-14 | the shift has order exactly 255: k shifts are the identity if and only if 255 divides k |
| Crc.TwoBitIff | MCU/src/can_gateway.cpp:7-17 | a two-bit error is missed if and only if the bits are a multiple of 255 apart, at every length |
| Crc.ShortMessages | MCU/src/can_gateway.cpp:7-17 | up to 31 bytes every two-bit error is caught |
| Crc.SingleBit | MCU/src/can_gateway.cpp:7-17 | every single-bit error is caught, at every length |
| CanGateway.Residue | MCU/src/can_gateway.cpp:26-32 | a message with its checksum is intact if and only if the register over both ends in the residue |
| CanGateway.PassesIff | MCU/src/can_gateway.cpp:26-32 | which corruptions of message and checksum pass the check, exactly |
| CanGateway.CorruptionCaught | MCU/src/can_gateway.cpp:26-32 | any one- or two-bit corruption of up to 31 bytes, checksum included, is caught on recomputation |
| CanGateway.FrameData | MCU/src/can_gateway.cpp:26-33 | the eight bytes: fixed head, level, sealed by the checksum, counter last |
| CanGateway.FrameProtection | MCU/src/can_gateway.cpp:20-33 | every frame is accepted, any one- or two-bit corruption of bytes 0 to 6 is not, any change of the alive counter is |
| CanGateway.AliveModulo | MCU/src/can_gateway.cpp:5-33 | the n-th frame of the run carries n - 1 modulo 256, through every wrap-around |
| CanGateway.FillData | MCU/src/can_gateway.cpp:26-33 | the bytes written one by one are the sealed frame |
| CanGateway.FrameOf | MCU/src/can_gateway.cpp:20-35 | identifier 0x18FF01F4, extended, CAN-FD and bit-rate-switch flags, eight bytes holding level and counter that pass the receiver's check |
| CanGateway.Gateway.constructor | MCU/src/can_gateway.cpp:5 | the counter starts at 0 with nothing sent |
| CanGateway.Gateway.SendFrame | MCU/src/can_gateway.cpp:20-45 | appends one frame of the level, keeps the run-level numbering and sealing of all frames, and advances the counter even when the driver fails |
| CanGateway.Gateway.SendDrowsiness | MCU/src/can_gateway.cpp:47-50 | a frame with the level, sent with 100 ms to block |
| CanGateway.Gateway.SendWarning | MCU/src/can_gateway.cpp:52-55 | a frame with level 255, numbered in the same sequence, sent with 5 ms to block |
| Drowsiness.CounterIsMaxSuffix | mpu/ai/drowsiness.py:157-170 | the clamped counter is the largest closed - 2 * open of any suffix of the history |
| Drowsiness.ReportsIff | mpu/ai/drowsiness.py:161-165 | a level is sent at a closed observation if and only if some suffix has closed - 2 * open of at least 15 |
| Drowsiness.SentLevel | mpu/ai/drowsiness.py:157-170 | what each observation adds, told from the balances: where the largest closed - 2 * open of any suffix is m, a closed one sends 50 + 2m for m in 15..25, 100 above, nothing below; an open one nothing |
| Drowsiness.ClosedFromStart | mpu/ai/drowsiness.py:157-166 | n closed observations from the start send 80, 82, .., 100, 100, .. |
| Drowsiness.ReportedLevels | mpu/ai/drowsiness.py:163-165 | every level ever sent lies in 80..100 |
| Drowsiness.Watch | mpu/ai/drowsiness.py:148-170 | the loop over frames and faces, each closed with fewer than two eyes found, sends exactly the reports of all observations in order |
| Mailbox.SharedLevel.constructor | MCU/src/main.cpp:42-43 | the mailbox starts empty |
| Mailbox.SharedLevel.StoreNotify | MCU/src/main.cpp:77-80 | a Notify overwrites the level and touches nothing else |
| Mailbox.SharedLevel.CanGet | MCU/src/main.cpp:48-49 | a positive level is taken over, the mailbox keeps it |
| Mailbox.SharedLevel.CanSend | MCU/src/main.cpp:52 | the level taken over is attempted, whatever the mailbox holds by now |
| Mailbox.SharedLevel.CanClear | MCU/src/main.cpp:53 | the mailbox is emptied, whatever has been stored since |
| Mailbox.SharedLevel.Execute | MCU/src/main.cpp:45-80 | driven through any interleaving of the two threads, the object is in the state the run theorems speak of |
| Mailbox.MailboxHolds | MCU/src/main.cpp:42-80 | at the end of any run the shared level is the last one stored, or 0 if a clear came after it or none was; a get does not change it |
| Mailbox.AttemptsExactly | MCU/src/main.cpp:45-57 | under every interleaving, the levels attempted are exactly the positive Notify levels the CAN thread got before a later Notify or its own clear |
| Mailbox.NoneInvented | MCU/src/main.cpp:45-80 | they are a subsequence of the received positive levels: none invented, duplicated or reordered |
| Mailbox.NotOverwrittenIsSent | MCU/src/main.cpp:48-53 | in any run: a positive level whose store is followed by a get before any other access is sent by the CAN thread's next step, whatever is stored in between |
| Mailbox.WipedByClear | MCU/src/main.cpp:48-53 | in any run: a level stored anywhere between the CAN thread's get and its clear is lost for good; only the older level is attempted |
| Safety.SafetyMonitor.constructor | MCU/src/safety.cpp:45-67 | watchdog and timer start with boot, in NORMAL |
| Safety.SafetyMonitor.EnterSafeState | MCU/src/safety.cpp:22-28 | entry happens once: in SAFE nothing changes, not even a warning is sent |
| Safety.SafetyMonitor.Timeout | MCU/src/safety.cpp:30-43 | the timer callback's whole new state: entry without a feed in NORMAL, warning and feed in SAFE |
| Safety.SafetyMonitor.KickWatchdog | MCU/src/safety.cpp:69-77 | feed, re-arm and recovery, at the times they take effect |
| Safety.SafetyMonitor.Execute | MCU/src/safety.cpp:22-77 | driven through any run, callbacks between the steps of a kick included, the object is in the state the run theorems speak of |
| Safety.SafeStateExact | MCU/src/safety.cpp:22-77 | over every run: SAFE if and only if the timer has expired since it was last armed (while a kick has re-armed but not yet cleared: if it had before), the n-th expiry n periods after that, as many expiries in a silence of length d as d / period (one less at the instant the next is due), one warning and one LED toggle for each |
| Safety.FeedingExact | MCU/src/safety.cpp:30-77 | over every run the watchdog was last fed by the last kick or the last expiry in SAFE, whichever is later, and by nothing else; never where there is none |
| Safety.TimelyKicksStayNormal | MCU/src/safety.cpp:69-77 | runs whose kicks stay less than a period apart never enter SAFE, never send a warning, never expire the watchdog |
| Safety.FedIsAlwaysRecent | MCU/src/safety.cpp:69-77 | feeds less than period - stall apart re-arm the timer in time, however long each kick stalls |
| Safety.KickedInTime | MCU/src/safety.cpp:69-77 | a run whose feeds follow a timetable with steps below period - stall is fed in time at every instant |
| Safety.SurvivesAll | MCU/src/safety.cpp:30-43 | with 2 * period + stall < watchdog no run at all is reset |
| Safety.SilenceExpires | MCU/src/safety.cpp:22-43 | with watchdog <= 2 * period + stall some silence is |
| Safety.WatchdogBound | MCU/src/safety.cpp:13-77 | no run is ever reset if and only if 2 * period + stall < watchdog, for all periods, watchdog times and stalls inside a kick |
| Safety.SafeBranchIff | MCU/src/safety.cpp:35-42 | with the watchdog ready, the SAFE branch runs in some run if and only if 2 * period <= watchdog + stall |
| Safety.ShippedConfiguration | MCU/src/safety.cpp:13-43 | at 100 ms and 150 ms the SAFE branch never runs and no run passes 150 ms after its last kick: there only the reset is left |
| Safety.TimePerKick | MCU/src/safety.cpp:69-77 | a run lasts at most one watchdog time per kick, plus one |
| SdMessages.Parse | mpu/someip/sd.py:161-234 | parse_sd with its loops, for every packet: the parsed value, ValueError, or the IndexError at 16 bytes |
| SdMessages.ParseEntries | mpu/someip/sd.py:194-208 | the entry loop decodes the 16-byte chunks in order |
| SdMessages.ParseOptions | mpu/someip/sd.py:210-227 | the option walk, which ends on every input, or raises |
| SdRoundTrip.EntryRoundTrip | mpu/someip/sd.py:57-87 | every built entry decodes to its arguments masked to their fields, for both builders and all integers |
| SdRoundTrip.OptionRoundTrip | mpu/someip/sd.py:90-98 | every built endpoint option decodes to its masked arguments |
| SdRoundTrip.MessageLayout | mpu/someip/sd.py:101-122 | header, flags, both lengths and both areas stand at the offsets both parsers read |
| SdRoundTrip.MessageRoundTrip | mpu/someip/sd.py:101-234 | for every list of entries and endpoint options parse_sd returns the masked lists in order, and the length field is the packet size minus 8 |
| SdRoundTrip.OptionsTile | mpu/someip/sd.py:210-227 | an option area is accepted if and only if blocks of at least 3 bytes, the last one longer, tile it exactly; the options are those blocks decoded |
| SdWire.EntryRuns | mpu/someip/sd.py:57-87 | bytes 1 to 3 of every built entry: both option indices, the first run in the high half of byte 3, the second in the low half |
| SdWire.OfferWire | mpu/someip/sd.py:134-141 | OfferService, byte by byte, for all ids, addresses, ports, sessions, TTLs and flags |
| SdWire.StopOfferWire | mpu/someip/sd.py:144-147 | StopOffer, byte by byte |
| SdWire.OfferRuns | mpu/someip/sd.py:134-141 | the first option run of a built offer covers exactly the options it carries, the second none |
| SdWire.ParsedExactly | mpu/someip/sd.py:161-234 | parse_sd on every packet, told from its bytes: exactly which it accepts, and every field of every entry and option it returns |
| SdWire.McuParsedExactly | MCU/src/someip_sd.cpp:138-186 | sd_parse on every packet, told from its bytes: exactly which it accepts, header and entry table |
| SdWire.SlotsRead | MCU/src/someip_sd.cpp:188-205 | slot k of the option table holds what block k of the option bytes says, for every option area |
| McuSd.PutU8 | MCU/src/someip_sd.cpp:58-67 | one byte continues the run of writes and leaves the rest of the buffer |
| McuSd.PutU16 | MCU/src/someip_sd.cpp:18-21 | the two bytes Python's struct.pack would give, nothing else written |
| McuSd.PutU32 | MCU/src/someip_sd.cpp:23-28 | the four bytes Python's struct.pack would give, nothing else written |
| McuSd.PutBytes | MCU/src/someip_sd.cpp:83 | a copy of given bytes, nothing else written |
| McuSd.PutSomeipHeader | MCU/src/someip_sd.cpp:42-52 | the header of Python's build_sd_message |
| McuSd.PutEntry | MCU/src/someip_sd.cpp:54-75 | sixteen bytes, the last four by entry type |
| McuSd.PutIp4Option | MCU/src/someip_sd.cpp:77-87 | the bytes of Python's build_ipv4_endpoint_option |
| McuSd.FindWire | mpu/someip/sd.py:127-131 | FindService, byte by byte |
| McuSd.SubscribeWire | mpu/someip/sd.py:150-156 | SubscribeEventgroup, byte by byte |
| McuSd.SdBuildFindService | MCU/src/someip_sd.cpp:91-110 | writes exactly what Python's build_find_service returns, for all ids and sessions; bytes behind it untouched; on -1 the buffer untouched |
| McuSd.SdBuildSubscribe | MCU/src/someip_sd.cpp:112-134 | the same against Python's build_subscribe_eventgroup, for all ids, ports, sessions and addresses |
| McuSdParser.SdParsed.Zero | MCU/src/someip_sd.cpp:146 | the whole structure is zero |
| McuSdParser.SdParsed.FillEntries | MCU/src/someip_sd.cpp:172-186 | the entry table of the entry area, unused slots still zero |
| McuSdParser.SdParsed.StoreSlot | MCU/src/someip_sd.cpp:196-203 | one block fills its slot and moves the count, or leaves both |
| McuSdParser.SdParsed.FillOptions | MCU/src/someip_sd.cpp:188-205 | the option table of the option area, in bounds and without wrap-around of the 32-bit offset, for every area |
| McuSdParser.SdParsed.FillTables | MCU/src/someip_sd.cpp:168-207 | once the lengths are checked, the whole output structure is determined by the packet |
| McuSdParser.SdParse | MCU/src/someip_sd.cpp:138-208 | return code and whole output structure for every buffer of every length, null pointers included; all reads in bounds |
| McuSdParser.EntryTableAt | MCU/src/someip_sd.cpp:172-186 | the table is the only one that decodes chunk k into slot k and leaves the others zero |
| SdRefinement.Refinement | MCU/src/someip_sd.cpp:138-208 | every packet Python accepts with at most four entries the MCU accepts, and its structure is Python's result cut to the tables; of the packets the MCU accepts Python accepts exactly those of message type 2 whose option blocks tile |
| SdRefinement.BothAccept | mpu/someip/sd.py:161-234 | exactly which packets both accept |
| SdRefinement.EntriesKept | MCU/src/someip_sd.cpp:172-186 | the MCU's entry table is Python's entries, event groups for types 6 and 7 only |
| SdRefinement.OptionsKept | MCU/src/someip_sd.cpp:188-205 | slot i holds an endpoint if and only if Python's option i is a decoded 0x04 endpoint, with equal address, protocol and port |
| SdRefinement.LastFilledExact | MCU/src/someip_sd.cpp:202 | option_count is one past the last filled slot, or 0 |
| Discovery.SdClient.constructor | MCU/src/someip_service.cpp:225-253 | both counters start at 0 |
| Discovery.SdClient.SendFind | MCU/src/someip_service.cpp:223-245 | sends FindPacket under the next session, Python's bytes; 0 exactly if all 44 went out; the trace stays numbered |
| Discovery.SdClient.SendSubscribe | MCU/src/someip_service.cpp:251-276 | sends SubscribePacket under the next session, Python's bytes; 0 exactly if all 56 went out; the Find counter is untouched |
| Reactions.SubscribeMeaning | MCU/src/someip_service.cpp:251-268 | every Subscribe goes to the provider, and parse_sd reads in it one entry of type 6 for 0x1234/0x5678, event group 1, endpoint 127.0.0.1:30490 over UDP, under any session |
| Reactions.FindMeaning | MCU/src/someip_service.cpp:223-234 | every query goes to the group, and parse_sd reads in it one entry of type 0 for 0x1234/0x5678 and no option |
| Reactions.SubscribesToTheOffer | MCU/src/someip_service.cpp:184-208 | the Subscribe an offer draws carries that offer's own service and instance id |
| Discovery.NumberedThroughout | MCU/src/someip_service.cpp:225-258 | the k-th Find and the k-th Subscribe of any run carry session k modulo 65536, each kind by itself |
| Reactions.SessionNumbers | MCU/src/someip_service.cpp:225-258 | bytes 10 and 11 of the datagrams on any trace: each is one more than the number of its kind before it, modulo 65536 |
| Discovery.SessionZero | MCU/src/someip_service.cpp:225-258 | a run of 65536 Subscribes ends with session 0 on the wire, and so does any Find or Subscribe with 65535 of its kind before it |
| Discovery.SdClient.SubscribeOnce | MCU/src/someip_service.cpp:196-209 | one Subscribe at most per entry, if there is a UDP endpoint |
| Discovery.SdClient.React | MCU/src/someip_service.cpp:184-215 | one Subscribe per running offer of our service |
| Discovery.SdClient.Handle | MCU/src/someip_service.cpp:178-217 | for every buffer, exactly the Subscribes it is worth, consecutively numbered, and never an event |
| Discovery.ReactionCount | MCU/src/someip_service.cpp:184-215 | told from Python's reading: the number of running offers of the service, if a UDP endpoint stands among the first four options, else none |
| Reactions.ReactionsExact | MCU/src/someip_service.cpp:178-217 | for any bytes at all, accepted by Python or not: the number of entries with type 1, TTL not 0 and ids 0x1234/0x5678, if one of the first four option blocks is a 0x04 endpoint over UDP, else none |
| Discovery.SdClient.UdpReceive | MCU/src/someip_service.cpp:278-308 | every datagram: the event or none, and the Subscribes, of what fits the 64-byte buffer |
| Reactions.UdpEventExact | MCU/src/someip_service.cpp:286-307 | an event is reported for exactly the datagrams of at least 17 bytes of service 0x1234, message type 2 and length 8 to 32; id and payload stand at bytes 2 and 16 |
| Reactions.UdpAgainstPython | MCU/src/someip_service.cpp:286-307 | against parse_event on the same bytes: rejected for size, service or type there, no event here; parsed there, the same id here for at most 24 payload bytes; only a length beyond the datagram is rejected there and may be reported here |
| Discovery.AtMostOnePerDatagram | MCU/src/someip_service.cpp:278-293 | the first 64 bytes of a datagram decide, and none, whatever its bytes, draws more than one Subscribe |
| Discovery.LongMessagesIgnored | MCU/src/someip_service.cpp:279-293 | every built message longer than 64 bytes is dropped without a reaction |
| Discovery.OfferDrawsOne | mpu/someip/sd.py:134-141 | every running offer of 0x1234/0x5678 draws exactly one Subscribe over UDP, any other offer none |
| Discovery.OthersDrawNone | mpu/someip/sd.py:127-156 | StopOffer, FindService and Subscribe draw none, so the MCU never answers its own messages |
| Discovery.EventOverUdp | MCU/src/someip_service.cpp:286-307 | event packets arrive over UDP if and only if they have 1 to 24 payload bytes, each without any idle gap |
| SdServing.SdServer.constructor | mpu/someip/sd.py:247-259 | session 1 and the reboot flag are pending |
| SdServing.SdServer.OfferOnce | mpu/someip/sd.py:261-274 | keeps: the n-th packet ever sent carries session ((n - 1) mod 65535) + 1, and the reboot flag only for n = 1 |
| SdServing.EveryOffer | mpu/someip/sd.py:261-274 | what parse_sd reads in every offer of every run: all fields, a session that is never 0, flags 0xC0 on the first and 0x40 on all later ones; and it draws one Subscribe from the MCU if it is of its service |
| SdServing.CrashIff | mpu/someip/sd.py:169-180 | exactly which packets raise IndexError: a bare 16-byte SD header |
| SdServing.AssignFirst | mpu/someip/sd.py:360-369 | the entry's key is assigned the message's first endpoint, if there is one |
| SdServing.FoldMessage | mpu/someip/sd.py:353-369 | one message changes the dictionary by its assignments in order |
| SdServing.Discover | mpu/someip/sd.py:316-372 | the query sent, and for every search and all packets the list that `SdResults.Collected` describes, the deduplicated list of their assignments, or the escaping IndexError, for exactly the lists with a bare 16-byte SD header |
| SdResults.DedupExact | mpu/someip/sd.py:338-372 | no key twice, exactly the assigned keys, in the order of their first assignments, each with the value of its last |
| SdResults.Collected | mpu/someip/sd.py:338-372 | told from parse_sd's results by position: an assignment is made by each entry of type 1 that the search covers in a message with a first decoded 0x04 endpoint; the result has no key twice, every assigned key, each with its last value, in the order of the first assignments |
| SdResults.CollectedOnce | mpu/someip/sd.py:338-372 | no other list does: the statement determines the result |
| SdServing.NoOfferNoChange | mpu/someip/sd.py:353-355 | a message without an offer entry, or that does not parse, leaves the result as it is, wherever it arrives |
| SdServing.QueriesChangeNothing | mpu/someip/sd.py:353-355 | FindService and Subscribe messages, the MCU's own included, are such messages |
| SdServing.FirstEndpointListed | mpu/someip/sd.py:360-369 | of a built offer with several endpoints the first is listed |
| SdServing.ServerFound | mpu/someip/sd.py:353-369 | whatever was received before an offer and after it, every search that covers it lists its address, unless a later message assigned the same key |
| SdServing.WithdrawnStaysListed | mpu/someip/sd.py:353-369 | any number of StopOffers after the offer leaves the service listed |
| Systems.McuHears | MCU/src/someip_service.cpp:71-115 | on every line whatsoever that carries one-byte packets, the MCU reports exactly those that meet an empty buffer or a noticed silence at their first byte and no noticed silence in their frame; nothing else |
| Systems.McuReceivesExactly | MCU/src/someip_service.cpp:71-115 | where no silence inside a packet is noticed, the MCU receives exactly the packets before whose first byte it noticed one, and the first |
| Systems.OnlyTheFirst | MCU/src/someip_service.cpp:71-115 | with silences of at most 50 ms the MCU receives exactly the first of any number of one-byte packets |
| Systems.AllReceived | MCU/src/someip_service.cpp:71-115 | with a noticed silence before each packet and none inside a frame, all are received in order |
| Systems.HeartbeatsStarve | MCU/src/main.cpp:72-83 | if kicks come only from packets received over such a line, no run lasts longer than 300 ms at the shipped timer and watchdog settings |
| Systems.HeartbeatsKeepNormal | MCU/src/main.cpp:72-83 | if each packet follows a noticed silence, kicks fall on the 17th byte of each by the line's own clock; kicks at these times, less than period - stall apart, keep every run in NORMAL without warning or reset |
| Systems.CameraToCan | MCU/src/main.cpp:45-83 | the drowsiness frames attempted are a subsequence of the camera loop's reports, for any timing of the bytes on the line, pauses inside packets included, and any interleaving of the threads, and lie in 80..100 |

## Left out

- Sockets, multicast join, pyserial, transport.py and client.py: sending appends to a trace, receiving is an argument; recvfrom is taken to cut a datagram to the buffer.
- The receive loop beyond its order and times: k_sleep takes at least 10 ms, and reads never wait.
- Zephyr drivers (UART, CAN, GPIO, watchdog, logging), boot and CAN timing configuration, and the LED of the main loop: trace events only.
- OpenCV, the camera and `eye_aspect_ratio` (floating point, unused by the loop): an observation is the number of eyes found in each detected face.
- Floating-point seconds of time.monotonic: time is integer milliseconds.
- Preemption inside one store or inside `alive_counter++`: the timer callback and the CAN thread could interleave there and repeat a counter value; `Gateway` sends frames one at a time.
- Mailbox.SharedLevel: the three steps of the CAN thread and the store are atomic each, as atomic_get and atomic_set are; the attempted frame itself is in `CanGateway`.
- Late timer callbacks and watchdog tolerance: a due timer fires, and a due watchdog resets, at its exact millisecond.
- The heartbeat thread's own counter and sleep: heartbeats appear as packets with any payload byte and any spacing.
- Runs after a watchdog reset: a run of `Safety` ends there.
- SdServer.start and stop, the thread and its period: runs are any number of `OfferOnce` calls.
- The two Find loops (the MCU's every 2 s, the client's one Find before listening) and the arrival deadline of discover: the received packets are an argument.
- Text forms of addresses (inet_aton, inet_ntoa, net_addr_ntop): an address is four bytes.
- Arguments for which struct.pack raises (lengths of 4 GiB and more, ids and sessions of event packets beyond 16 bits): preconditions of the builders.
- McuSdParser.SdParse: the const input buffer is a sequence, not an array, so it cannot alias the output structure.
- Discovery.SdClient.React: reads the parsed tables as sequences, for the same reason.
- scripts, demos, the yocto copies of the Python files, build and Docker configuration: nothing to prove, or duplicates.
