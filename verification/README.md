# Verification of the inverter driver and energy manager

A Dafny model of the parts of the repository that decide something: the two serial
drivers for the inverter, the publish/subscribe hubs, the control path from the
operating mode to the power command, the round-robin database, the two text and packet
encoders, and the network scan. `dafny verify dfyconfig.toml` checks everything.

Code that updates an object or a buffer in place is a class or a method with the same
branches and loops; its `ensures` ties it to a specification function, and the theorems
are lemmas about that function over every input, every run or every interleaving. What the
specification functions themselves compute is pinned by lemmas that write the result out
without naming them: `...InBytes` for frames, `...InNumbers` for arithmetic, `...InFull` for
steps, and histories counted on the events of a run alone.

| file | models |
|---|---|
| `Bytes.dfy` | bytes, checksums, 16-bit words, sequence facts shared by the rest |
| `VeBusParse.dfy` | one-shot parse of a VE.Bus byte stream and what it means |
| `VeBus.dfy` | the VE.Bus driver: building and receiving frames, connecting, the ESS scan, the power setpoint |
| `Mk2Frames.dfy` | the MK2 receiver that locks on to and loses the frame stream |
| `Mk2.dfy` | the MK2 driver: decoders, scales, requests, the driver object |
| `Mk2Protocol.dfy` | runs of the driver against a device that answers its requests |
| `FanOut.dfy` | what a hub with bounded channels does to them, for both policies on a full one |
| `CoreHub.dfy`, `WebHub.dfy`, `LegacyHub.dfy` | the three hubs as step systems and as objects |
| `Pid.dfy`, `Modes.dfy`, `ControlLoop.dfy` | the PID controller, the operating modes, one tick of the control loop |
| `Rrd.dfy` | the round-robin database |
| `Mqtt.dfy`, `Influx.dfy` | the encoders, each with an independent reader |
| `Discovery.dfy` | the walk over a network block |

## How things are modelled

- `float64` is `real`; rounding, NaN and infinities are outside the model. Bytes are
  integers from 0 to 255; 16-bit words, signs and wrap-around are written out.
- What comes from outside is an input: the bytes of a serial port as an arbitrary list of
  reads, the time of each update, sunrise and sunset, the readings of each tick. The
  time-out of a VE.Bus reply is the end of the reads.
- A goroutine that picks among channels is a step system: an event is possible when its
  channel operation would not block, and a run is any sequence of possible events. Each
  class method of a hub is one of these steps.
- An index out of range, which would stop the Go program, is the result `None` of a
  decoder; sending on or closing a closed channel is the flag `panicked`.

## Where the code and its description differ

The model follows the code.

- A frame whose own length byte is 0x20 or 0xFF can be taken for a header by an unlocked
  MK2 receiver. It can rely on locking exactly when the length byte is neither, or nothing
  is remembered from before (`Mk2Frames.LocksOnEveryFrameIff`).
- A version frame while a scale request is unanswered makes the driver ask for that scale
  again, and from then on every scale is stored an entry too late. The scales are those
  asked for exactly in the runs without such a frame
  (`Mk2Protocol.ScalesMatchRequestsIffCalm`); `Mk2Protocol.ScalesCanBeMisplaced` gives five
  frames that misplace one.
- The shift and the product in the version decoder associate to the left, so the version
  kept is not the little-endian number sent (`Mk2.VersionIsLittleEndianTwice`).
- The zero-grid mode does not set the PID setpoint to 0: it goes on with the setpoint the
  mode before it left behind, and so does the manual mode, which is still sent commands
  (`ControlLoop.ZeroGridKeepsTheOldSetpoint`, `ControlLoop.SetpointIsTheLastAsked`).
- A tick without grid data sends nothing, as its comment says, but the PID controller is
  still updated with the power it was given. It is left as it was exactly when there is
  none, or it is disabled and asked for nothing new
  (`ControlLoop.SilentTickLeavesControllerIff`); while it is enabled, such ticks go on
  winding up its integral (`ControlLoop.BlindTicksWindUp`).
- The checks for answers that are too short in the VE.Bus driver never fire: an answer begins
  with the header asked for, and its length is the one that header gives
  (`VeBusParse.AnswerLength`).
- A schedule period with a negative priority is never in force, even when it is the only
  one active (`Modes.NegativePriorityIsNeverInForce`).
- A comment in the PID controller calls a positive error importing; with its formula a
  positive error is importing less than wanted (`Pid.CommandOpposesDeviation`).
- An IPv4 network given with prefix length 0 makes the scan loop run forever
  (`Discovery.ZeroPrefixNeverEnds`). An IPv6 block that holds the IPv4-mapped addresses is
  left at the first of them, because the membership test takes those for IPv4 addresses
  (`Discovery.VisitsTheWholeBlockIff`).
- Tag keys and values that end in a backslash are not read back from an InfluxDB line
  (`Influx.TagsReadBack`), and strings longer than 65,535 bytes not from an MQTT packet
  (`Mqtt.StringRoundTrip`, `Mqtt.StreamReadsBack`).

## Model

| member | source | states |
|---|---|---|
| VeBusParse.FirstStart | energymanager/vebus/vebus.go:478-486 | the place found is a possible frame start and no earlier place is one; none is found only if there is none |
| VeBusParse.FirstStartInBytes | energymanager/vebus/vebus.go:478-486 | a frame starts at the first byte of 2 to 32 with 0xFF or 0x20 behind it, and nowhere else |
| VeBusParse.ParseInBytes | energymanager/vebus/vebus.go:454-522 | the whole parse in bytes: what stands before the first such place is dropped, but for the last byte; from it on, length plus two bytes are waited for, returned or skipped |
| VeBusParse.AnswerBehindInfoFrame | energymanager/vebus/vebus.go:476-521 | an unsolicited 0x20 frame in front of an answer is skipped whole, or returned when it is the one asked for |
| VeBusParse.AnswerLength | energymanager/vebus/vebus.go:454-522 | what is returned begins with the header and is exactly as long as its length byte says, so no answer is ever too short |
| VeBusParse.ParseAppend | energymanager/vebus/vebus.go:454-530 | bytes arriving later never change what was already parsed: a frame found stays found, an unfinished parse continues from exactly the bytes kept, however the stream was cut |
| VeBusParse.RestIsStable | energymanager/vebus/vebus.go:454-522 | what an unfinished parse keeps is at most one byte or one unfinished frame, and holds nothing more to find |
| VeBusParse.ParseGapAndFrame | energymanager/vebus/vebus.go:476-521 | a complete frame behind garbage without a frame start is returned if it has the header and skipped otherwise |
| VeBusParse.ReadingIsUnique | energymanager/vebus/vebus.go:454-522 | any way to write a stream as garbage gaps and frames is the one the parser finds |
| VeBusParse.FirstMatchIsReturned | energymanager/vebus/vebus.go:454-522 | the first frame with the wanted header is returned, all frames before it are skipped in order |
| VeBusParse.ParseLosesNothing | energymanager/vebus/vebus.go:454-522 | gaps, skipped frames, the returned frame and the kept bytes together are exactly the stream |
| VeBusParse.Next | energymanager/vebus/vebus.go:476-520 | a pass that takes a frame off the buffer makes the buffer strictly shorter |
| VeBus.SealedIsUnique | energymanager/vebus/vebus.go:445-451 | the checksum byte is the only one that makes the bytes of a frame sum to 0 modulo 256 |
| VeBus.BuildFrame | energymanager/vebus/vebus.go:437-452 | the array filled and summed step by step is the length, marker, command, data and checksum |
| VeBus.BuiltIsFrame | energymanager/vebus/vebus.go:437-452 | a built frame is one the receiver accepts as a frame if and only if it carries at most 30 data bytes |
| VeBus.BuiltFrameIsReceived | energymanager/vebus/vebus.go:430-530 | a frame one side builds is what the other side receives, behind any start-free garbage and before anything |
| VeBus.ConnectRequestsInBytes | energymanager/vebus/vebus.go:233-260 | the version and address requests, byte by byte |
| VeBus.ReadRequestInBytes | energymanager/vebus/vebus.go:372-380 | the request for a RAM variable, byte by byte |
| VeBus.PowerFrameInBytes | energymanager/vebus/vebus.go:401-410 | the power frame, byte by byte, the word in two's complement |
| VeBus.NodesIncrease | energymanager/vebus/vebus.go:372-398 | the visited RAM ids strictly increase, by at most 16 a node |
| VeBus.ScanFindsFirstMarker | energymanager/vebus/vebus.go:372-399 | the scan returns the slot behind the first ESS header of the chain, asks for the nodes up to it and no others, and the slot lies in 129..241 |
| VeBus.ScanFailsWithoutMarker | energymanager/vebus/vebus.go:372-399 | without an ESS header among the first eight nodes the scan fails after asking for all eight |
| VeBus.ScanSlotInRange | energymanager/vebus/vebus.go:372-399 | whatever values are read, a slot found lies behind the start by at most 16 for every node walked, so within 129..241 from id 128 in eight nodes |
| VeBus.ScanInBytes | energymanager/vebus/vebus.go:382-397 | bytes 5 and 6 of the answer carry the value, 0x50 to 0x5F marks the ESS assistant, and behind any other header the scan goes on past as many slots as its low four bits say; an answer is never too short |
| VeBus.PowerFrameCarries | energymanager/vebus/vebus.go:401-410 | the slot and the 16-bit word can be read back from the frame |
| VeBus.PowerFrameDecodes | energymanager/vebus/vebus.go:191-208 | for a limit up to 32767 W the frame carries the negated whole watts of the clamped command, within the limit |
| VeBus.PowerWordInNumbers | energymanager/vebus/vebus.go:191-208 | the word is the whole watts of the command held to the limit, negated |
| VeBus.PowerAnswerInBytes | energymanager/vebus/vebus.go:412-428 | behind any info frame the answer 03 FF 58 is found, and accepted exactly when its fourth byte is 0x87 |
| VeBus.VEBus.constructor | energymanager/vebus/vebus.go:84-94 | a limit that is not positive becomes 5000 W; nothing is buffered, no slot is known |
| VeBus.ConnectingKeepsSlotKnown | energymanager/vebus/vebus.go:97-127 | connecting keeps the slot at 0 or in 129..241, whatever is received, and ends well only with one in that range |
| VeBus.ConnectionInBytes | energymanager/vebus/vebus.go:97-127 | the requests written, in bytes, and the slot kept: nothing is asked after a missing answer or another address, and the slot changes only when the scan finds one |
| VeBus.VersionInBytes | energymanager/vebus/vebus.go:233-246 | the version is bytes 4 to 7 of the answer, the lowest first |
| VeBus.VEBus.Connect | energymanager/vebus/vebus.go:97-127 | version, address and scan in that order, each only after the one before; the slot found is kept, and a failure leaves the slot as it was |
| VeBus.VEBus.GetVersion | energymanager/vebus/vebus.go:233-246 | one version request; the version is the little-endian number in the fourth to seventh byte of the first matching answer, none when that is shorter than seven bytes or does not come |
| VeBus.VEBus.InitAddress | energymanager/vebus/vebus.go:248-260 | one address request; it succeeds when the first matching answer has the address in its fifth byte |
| VeBus.VEBus.SendFrame | energymanager/vebus/vebus.go:430-435 | exactly the built frame is written |
| VeBus.VEBus.ReceiveFrame | energymanager/vebus/vebus.go:454-530 | for every way the reads split the stream, the frames skipped, the frame returned and the bytes left are those of parsing the whole stream at once |
| VeBus.VEBus.ExtractFrames | energymanager/vebus/vebus.go:476-521 | the inner loop on the buffer is the parse of the buffer, and ends |
| VeBus.VEBus.FindFrameStart | energymanager/vebus/vebus.go:478-486 | the index found is the first frame start, -1 only if there is none |
| VeBus.VEBus.ReadRAMVar | energymanager/vebus/vebus.go:375-391 | one read request is written, the value is that of the first answer with the header |
| VeBus.VEBus.ScanESSAssistant | energymanager/vebus/vebus.go:372-399 | the loop is the chain walk, result and requests written |
| VeBus.VEBus.SetPower | energymanager/vebus/vebus.go:191-208 | without a slot nothing is written; otherwise exactly one power frame for the clamped command, and the outcome is the device's answer |
| VeBus.VEBus.SetPowerInternal | energymanager/vebus/vebus.go:401-428 | the frame written and how each kind of answer is judged |
| Mk2Frames.NextRound | mk2driver/mk2.go:100-143 | every round consumes input |
| Mk2Frames.LockedTakesFrames | mk2driver/mk2.go:100-143 | a locked receiver hands on every well-formed frame, in order and once |
| Mk2Frames.LocksOnFrame | mk2driver/mk2.go:118-141 | an unlocked receiver at a frame boundary locks after exactly one well-formed frame, unless its length byte looks like a header |
| Mk2Frames.LocksOnEveryFrameIff | mk2driver/mk2.go:118-141 | for every length byte and remembered byte: every well-formed frame of that length is locked on, whatever follows, if and only if the length byte is no header byte or nothing is remembered |
| Mk2Frames.SynchronisesThenDelivers | mk2driver/mk2.go:100-143 | after that one frame every later frame is handed on exactly once and in order |
| Mk2Frames.LengthLikeHeaderIsMissed | mk2driver/mk2.go:118-141 | length byte 0x20 with 0x21 remembered is the extreme case: every frame of that length is missed, whatever it holds |
| Mk2Frames.ChangedByteIsRejected | mk2driver/mk2.go:185-217 | any change of one byte other than the length is noticed and unlocks, with nothing handed on |
| Mk2Frames.OneChangedByteCostsTwoFrames | mk2driver/mk2.go:100-143 | such a change loses that frame and the next, and no other |
| Mk2Frames.CommandIsWellFormed | mk2driver/mk2.go:420-446 | a composed command passes the receiver's checksum test if and only if it has at most 254 bytes |
| Mk2Frames.DriversAgree | mk2driver/mk2.go:420-437 | both drivers put the same bytes on the wire for the same command |
| Mk2.ScaleLayouts | mk2driver/mk2.go:245-281 | both answer layouts carry the same sign, factor or reciprocal, and offset |
| Mk2.ShortAnswerIsUnsupported | mk2driver/mk2.go:245-250 | an answer is without a scale exactly when it has fewer than six bytes |
| Mk2.RequestsInBytes | mk2driver/mk2.go:220-243 | the requests of the driver, byte by byte |
| Mk2.ScaleRequestInBytes | mk2driver/mk2.go:229-235 | the request for a scale, byte by byte |
| Mk2.DcReadsBack | mk2driver/mk2.go:304-380 | in numbers, for any scales: the voltage is factor times number plus offset, with the scale's sign, 0 without a scale; the current is the factor times discharged less charged; the frequency times the scaled period is 10; nothing else changes but the AC request |
| Mk2.AcReadsBack | mk2driver/mk2.go:304-380 | the same for the four signed numbers, which come out as they are without a scale, and the period of an AC frame |
| Mk2.InverterFrequencyExample | mk2driver/mk2.go:267-380 | a real inverter's scale bytes and period byte give 50.03 Hz |
| Mk2.StateReadsBack | mk2driver/mk2.go:383-387 | the charge answer completes the report with the scaled charge and begins an empty one |
| Mk2.LedsReadBack | mk2driver/mk2.go:390-417 | each LED shows its own bit, on before blinking; the charge request follows |
| Mk2.VersionReadsBack | mk2driver/mk2.go:284-302 | the number kept, and the request for the missing scale or the DC readings |
| Mk2.ScaleReadsBack | mk2driver/mk2.go:245-281 | any scale answer becomes the next scale and asks for the one after it, up to 14 |
| Mk2.OtherFramesAreIgnored | mk2driver/mk2.go:185-217 | frames with other command or info bytes change nothing |
| Mk2.EndOfInput | mk2driver/mk2.go:100-163 | when the input ends inside a frame the lock is given up, the report is invalid and one or two errors are counted |
| Mk2.VersionIsLittleEndianTwice | mk2driver/mk2.go:284-291 | the version kept equals the little-endian number sent for exactly two answers |
| Mk2.ServesEveryFrame | mk2driver/mk2.go:100-143 | serving a stream is handling its frames one by one |
| Mk2.Mk2Ser.constructor | mk2driver/mk2.go:84-97 | the driver starts unlocked, with no scales, an empty report and the target request sent |
| Mk2.Mk2Ser.FrameLocker | mk2driver/mk2.go:100-143 | the loop over all the input is the served stream, in input, lock and every field |
| Mk2.Mk2Ser.FrameLockerRound | mk2driver/mk2.go:102-142 | one round of the loop is one step of the receiver and what it hands on is handled |
| Mk2.Mk2Ser.HandleFrame | mk2driver/mk2.go:185-217 | a bad checksum unlocks and changes no other field; a good one is dispatched to the decoder its bytes select |
| Mk2.Mk2Ser.SendCommand | mk2driver/mk2.go:420-437 | exactly the command frame is written |
| Mk2.Mk2Ser.CheckChecksum | mk2driver/mk2.go:440-446 | the wrapping sum is 0 exactly when length, header and data sum to 0 modulo 256 |
| Mk2.Mk2Ser.ReadByte | mk2driver/mk2.go:155-163 | the next byte, or an error recorded when there is none |
| Mk2.Mk2Ser.DecodeVersion | mk2driver/mk2.go:284-302 | the version is kept and either the next scale or the first reading is asked for |
| Mk2.Mk2Ser.DecodeScale | mk2driver/mk2.go:245-281 | one scale is appended and the next request sent |
| Mk2.Mk2Ser.DecodeDc | mk2driver/mk2.go:342-357 | the scaled battery readings and the AC request |
| Mk2.Mk2Ser.DecodeAc | mk2driver/mk2.go:360-373 | the scaled AC readings and the LED request |
| Mk2.Mk2Ser.DecodeLed | mk2driver/mk2.go:390-399 | the LED states and the charge request |
| Mk2.Mk2Ser.DecodeState | mk2driver/mk2.go:383-387 | the charge state and the report |
| Mk2.Mk2Ser.UpdateReport | mk2driver/mk2.go:175-182 | the readings gathered are offered once and cleared |
| Mk2.Compose | mk2driver/mk2.go:420-433 | the array composed byte by byte is the command frame with a checksum that makes it well-formed |
| Mk2.GetLEDs | mk2driver/mk2.go:402-417 | the shifting loop gives each LED the state of its own two bits |
| Mk2Protocol.EveryRunIsSafe | mk2driver/mk2.go:175-399 | in every run against a device that answers requests, with version frames at any time, the count equals the number of scales and no index is ever out of range |
| Mk2Protocol.AlignedIffCalm | mk2driver/mk2.go:245-302 | in every run, whatever is outstanding: all scales are the answers to their own requests, and so will be those to come, if and only if no version frame came while a scale request was unanswered and scales were missing |
| Mk2Protocol.ScalesMatchRequestsIffCalm | mk2driver/mk2.go:245-302 | in every run at whose end no scale request is unanswered, scale i is the answer to request i for every i if and only if no version frame came in the middle of the negotiation; then there are at most 14 |
| Mk2Protocol.CalmScalesMatchRequests | mk2driver/mk2.go:245-302 | without such a version frame the scales match their requests at every moment, whatever version frames come during the polling afterwards |
| Mk2Protocol.QuietReportIsOneCycle | mk2driver/mk2.go:175-399 | when version frames come only while nothing is outstanding, each report is made by exactly one version, DC, AC, LED and charge frame and holds what those alone give |
| Mk2Protocol.VersionWhileNegotiatingShiftsScales | mk2driver/mk2.go:245-302 | the other case: after any run that waits for scale i alone, a version frame makes entry i + 1 hold a second answer to request i |
| Mk2Protocol.FirstScaleIsAskedFor | mk2driver/mk2.go:284-302 | the shortest such run: the answer to the first request and one version frame leave the driver waiting for scale 0 alone |
| Mk2Protocol.ScalesCanBeMisplaced | mk2driver/mk2.go:245-302 | a run of five given frames after which entry 1 of the scales holds the second answer to request 0 |
| Mk2Protocol.ScaleAnswerForm | mk2driver/mk2.go:229-281 | an answer to a scale request always reaches the scale decoder |
| Mk2Protocol.WireCarriesTheRun | mk2driver/mk2.go:100-399 | the bytes of one well-formed first frame and then of all frames of a run, served by an unlocked driver, leave it locked in exactly the state of that run |
| FanOut.PublishedSound | energymanager/core/hub.go:51-61 | offering a message to every member keeps every channel in order, within its capacity, and every message delivered or counted as missed |
| FanOut.EvictedSound | websocket/hub.go:53-61 | the same where a full channel is closed and its client removed |
| FanOut.PublishedInFull | energymanager/core/hub.go:54-60 | a member with room gets the message behind what is there, a full one keeps its buffer, others are not touched |
| FanOut.EvictedInFull | websocket/hub.go:53-61 | the same, where a client is closed and removed exactly when its buffer is full |
| FanOut.MisusePanics | energymanager/core/hub.go:40-68 | closing a closed channel or sending on one panics |
| FanOut.OfferAll | energymanager/core/hub.go:54-60 | the loop in any order over the members is the offer to all at once |
| FanOut.OfferOrEvictAll | websocket/hub.go:54-61 | the loop that removes members while it walks them is the offer or eviction of all at once |
| FanOut.CloseAll | energymanager/core/hub.go:64-66 | every member's channel is closed once |
| CoreHub.EveryRunKeeps | energymanager/core/hub.go:37-111 | in every run the channels stay sound, only a second Close crashes, registrations are distinct |
| CoreHub.EveryInterleaving | energymanager/core/hub.go:37-111 | for every interleaving: no channel misused, `latest` the last info handled, each subscriber's infos an in-order part of those handled since its registration, gap-free if no broadcast handled found 8 in its buffer |
| CoreHub.NeverFullGetsAll | energymanager/core/hub.go:51-61 | counted on the events alone: a subscriber got exactly the infos handled while it subscribed that found fewer than 8 in its buffer, so all of them if none found 8 |
| CoreHub.QueuesInFull | energymanager/core/hub.go:37-111 | infos, registrations and ends are first in, first out: infos handled and waiting are exactly those broadcast while fewer than 16 waited, and the members are who was registered and not ended since |
| CoreHub.ChannelStep | energymanager/core/hub.go:37-111 | what each step does to each channel |
| CoreHub.HubStep | energymanager/core/hub.go:37-111 | what each step does to everything else |
| CoreHub.StepsThatCanHappen | energymanager/core/hub.go:37-111 | in every run only an empty queue holds up the goroutine, and only 16 waiting ids a caller |
| CoreHub.Hub.constructor | energymanager/core/hub.go:25-35 | an empty, running hub |
| CoreHub.Hub.NewSubscription | energymanager/core/hub.go:74-81 | a fresh channel is queued for registration |
| CoreHub.Hub.EndSubscription | energymanager/core/hub.go:109-111 | the subscription is queued for removal |
| CoreHub.Hub.Send | energymanager/core/hub.go:84-89 | the info is queued, or dropped when the queue is full |
| CoreHub.Hub.Shut | energymanager/core/hub.go:99-101 | the first call stops the hub, a second one panics |
| CoreHub.Hub.Next | energymanager/core/hub.go:104-106 | the oldest buffered info is taken |
| CoreHub.Hub.RunRegister | energymanager/core/hub.go:40-43 | the oldest registration is taken |
| CoreHub.Hub.RunUnregister | energymanager/core/hub.go:44-50 | a member's channel is closed once and removed |
| CoreHub.Hub.RunBroadcast | energymanager/core/hub.go:51-61 | the oldest info becomes the latest and is offered to all |
| CoreHub.Hub.SendToAll | energymanager/core/hub.go:54-60 | the loop over the subscribers is the offer to all |
| CoreHub.Hub.RunDone | energymanager/core/hub.go:62-68 | all channels are closed and the hub stops |
| WebHub.EveryRunKeeps | energymanager/webui/websocket.go:77-191 | in every run both hubs stay sound, what the websocket hub handles arrived through its subscription in order, and every info that arrived is handled, on its way or dropped, exactly once |
| WebHub.ClientsSeeBroadcastsInOrder | energymanager/webui/websocket.go:77-167 | across both hubs each client's messages are an in-order part of the broadcasts, none twice, and all this hub handled if no info handled found 64 in its buffer |
| WebHub.ClientSeesUnbrokenRun | energymanager/webui/websocket.go:77-167 | when no info was held while 16 were queued, all were marshalled, and neither the subscription nor the client was ever found full, each counted on the events, the client's messages are an unbroken run of the infos the core hub handled |
| WebHub.NeverFullGetsAll | energymanager/webui/websocket.go:107-122 | counted on the events alone: a client got exactly the infos handled while it was one that found fewer than 64 in its buffer |
| WebHub.EveryRunTells | energymanager/webui/websocket.go:77-191 | the infos lost are exactly those held while 16 were queued and those not marshalled, and what each client's channel holds is what the events say |
| WebHub.HubEvents | energymanager/webui/websocket.go:127-148 | every run, without what concerns the clients only, is a run of the core hub |
| WebHub.ClientStep | energymanager/webui/websocket.go:77-122 | what each step does to each client |
| WebHub.WebStep | energymanager/webui/websocket.go:77-148 | what each step does to everything else of this hub |
| WebHub.StepsThatCanHappen | energymanager/webui/websocket.go:77-148 | in every run only an empty queue holds up the two goroutines |
| WebHub.HandledWithoutGap | energymanager/webui/websocket.go:77-167 | with nothing lost in front of the clients, what the websocket hub handled is a gap-free part of what the core hub handled, from where the subscription was registered |
| WebHub.WSHub.Subscribe | energymanager/webui/websocket.go:127-131 | the hub's subscription on the core hub |
| WebHub.WSHub.TakeInfo | energymanager/webui/websocket.go:137-144 | the oldest info of the subscription is taken and held |
| WebHub.WSHub.QueueInfo | energymanager/webui/websocket.go:137-144 | the held info is queued, or dropped when the queue is full |
| WebHub.WSHub.StopForwarding | energymanager/webui/websocket.go:127-136 | once a stop is asked for, the loop gives its subscription back and ends |
| WebHub.WSHub.HandleRegister | energymanager/webui/websocket.go:92-96 | a client joins |
| WebHub.WSHub.HandleUnregister | energymanager/webui/websocket.go:98-105 | a client leaves and its channel is closed once |
| WebHub.WSHub.HandleBroadcast | energymanager/webui/websocket.go:107-122 | one queued info is offered to every client |
| WebHub.WSHub.SendToAll | energymanager/webui/websocket.go:115-121 | the loop over the clients is the offer to all |
| WebHub.WSHub.HandleStop | energymanager/webui/websocket.go:82-90 | all client channels are closed |
| WebHub.WSHub.RequestStop | energymanager/webui/websocket.go:64-68 | the first call asks both goroutines to stop, a second one panics |
| LegacyHub.EveryRunKeeps | websocket/hub.go:43-63 | in every run the channels stay sound and the messages handled are the broadcasts |
| LegacyHub.NoClientSkips | websocket/hub.go:43-63 | each client's messages are an unbroken run of the broadcasts from its registration, ended only by eviction or unregistration; its channel is closed at most once and not used after |
| LegacyHub.EvictedOnlyWhenFull | websocket/hub.go:43-63 | a client is one from its registration until it is unregistered or a broadcast finds 256 waiting for it, and was sent exactly the broadcasts until then |
| LegacyHub.ClientStep | websocket/hub.go:43-63 | what each step does to each client |
| LegacyHub.Hub.HandleRegister | websocket/hub.go:46-47 | a fresh client joins |
| LegacyHub.Hub.HandleUnregister | websocket/hub.go:48-52 | a member leaves and its channel is closed |
| LegacyHub.Hub.HandleBroadcast | websocket/hub.go:53-61 | each member gets the message or is evicted |
| Pid.RunStaysWithin | energymanager/pid/controller.go:94-235 | under any interleaving of its methods the integral and the output stay in their limits |
| Pid.UpdateInNumbers | energymanager/pid/controller.go:94-191 | a whole update written out: time, error, integral, the three terms, both reductions, the rate limit, the range, and what is kept |
| Pid.FreeCommand | energymanager/pid/controller.go:109-185 | with no limit in the way, on an import of 100 W or more, the command is the sum of the three terms, the derivative of the change of the error |
| Pid.SteadyErrorHasNoDerivative | energymanager/pid/controller.go:126-131 | a second update at the same grid power has no derivative term |
| Pid.DefaultControllerExample | energymanager/pid/controller.go:61-191 | the default controller importing 500 W commands 650 W, then 700 W |
| Pid.SettersInNumbers | energymanager/pid/controller.go:194-235 | what resetting, enabling, disabling and the setters change, and nothing else |
| Pid.DisabledUpdateDoesNothing | energymanager/pid/controller.go:98-100 | a disabled controller is left as it was |
| Pid.OutputMovesAtRate | energymanager/pid/controller.go:163-174 | clamping after the rate limit moves the output no further than the rate limit and is moving towards the clamped wish |
| Pid.OutputIsRateLimited | energymanager/pid/controller.go:94-191 | between resets and disablings any two outputs differ by at most the rate limit times the time between them |
| Pid.IntegralRecovers | energymanager/pid/controller.go:121-124 | however long the integral was saturated, k updates with error at least e for at least d bring it to k times e times d less its limit, or to its upper limit |
| Pid.IntegralOfConstantGrid | energymanager/pid/controller.go:121-124 | at a constant grid power without export, any number of updates changes the integral as one update does that counts for all their time |
| Pid.LaterStepMovesToTarget | energymanager/pid/controller.go:111-185 | inside the deadband an update after the first only moves the output towards the clamped, scaled integral term |
| Pid.Settles | energymanager/pid/controller.go:111-185 | once the error is cleared the output goes to that target without overshoot, by at least the rate limit a step |
| Pid.SettlesInTime | energymanager/pid/controller.go:111-185 | from any enabled state inside the deadband: after the first update the output goes to its target without overshoot and is there, and stays, after any number of further steps that covers the distance left at the rate limit |
| Pid.ProportionalCancelsGrid | energymanager/pid/controller.go:118-183 | with unit gain alone the command cancels the deviation on import and 30 percent of it on export |
| Pid.CommandOpposesDeviation | energymanager/pid/controller.go:109-183 | from rest the command is no charge when importing more than wanted and no discharge when importing less |
| Pid.TemperedGrowsWithImport | energymanager/pid/controller.go:136-161 | the asymmetric stage never strengthens a response and weakens it the more the less is imported |
| Pid.WindupDecays | energymanager/pid/controller.go:152-161 | k updates while exporting more than wanted leave at most 0.9 to the k of a wound-up discharge |
| Pid.Controller.constructor | energymanager/pid/controller.go:77-90 | enabled, with nothing accumulated and no time of a last update |
| Pid.Controller.Update | energymanager/pid/controller.go:94-191 | the stepwise update is the update of the state; a disabled controller returns 0 and changes nothing |
| Pid.Controller.Temper | energymanager/pid/controller.go:136-161 | the asymmetric scaling of the raw output |
| Pid.Controller.Limit | energymanager/pid/controller.go:163-174 | rate limit, then output range |
| Pid.Controller.SetEnabled | energymanager/pid/controller.go:194-202 | disabling clears the integral and the output and keeps the rest |
| Pid.Controller.SetSetpoint | energymanager/pid/controller.go:212-216 | only the setpoint changes |
| Pid.Controller.SetGains | energymanager/pid/controller.go:219-225 | only the gains change |
| Pid.Controller.Reset | energymanager/pid/controller.go:228-235 | integral, error, output and time are cleared, the settings kept |
| Modes.ScheduleChoice | energymanager/modes/controller.go:531-583 | the period in force is the earliest-listed active one of the greatest priority; there is none if and only if every active one has a negative priority |
| Modes.ActiveOnTheClock | energymanager/modes/controller.go:531-583 | when a period is active, its ends given in minutes from sunrise, sunset or midnight, its days, and its open ends |
| Modes.ModeThatDecides | energymanager/modes/controller.go:203-225 | the mode set decides, or with an enabled schedule that of the period in force by right, or zero-grid control |
| Modes.NegativePriorityIsNeverInForce | energymanager/modes/controller.go:539-569 | an active period of negative priority, alone in the list, is not in force |
| Modes.OvernightIsComplement | energymanager/modes/controller.go:561-579 | swapping two different end points gives the complement exactly away from the end points |
| Modes.TouInForce | energymanager/modes/controller.go:255-270 | the period found matches and none listed before it does; none is found only if none matches |
| Modes.TouFollowsThePeriod | energymanager/modes/controller.go:250-308 | full charge exactly in a charging period below 100 percent, full discharge exactly in a discharging one above the minimum, otherwise nothing |
| Modes.SolarInNumbers | energymanager/modes/controller.go:310-382 | all cases of the solar mode in numbers |
| Modes.SolarAnswersTheGrid | energymanager/modes/controller.go:310-382 | the solar setpoint opposes the grid power and never exceeds it; it discharges only above the minimum charge and for self-use |
| Modes.ZeroExportTakesAllExcess | energymanager/modes/controller.go:320-362 | zero export charges all the excess up to the power limit; the export limit is kept |
| Modes.SelfUseCoversImport | energymanager/modes/controller.go:364-381 | with self-use an import above 50 W is covered up to the power limit |
| Modes.SaveInNumbers | energymanager/modes/controller.go:384-431 | the battery-save power in numbers: the charge above the target spread over the minutes left, or over 6, held to the limit |
| Modes.DrainedShare | energymanager/modes/controller.go:401-422 | the commanded power drains the share of the gap that the time is of the time left |
| Modes.TargetIsKeptExactlyWithinHorizon | energymanager/modes/controller.go:384-431 | following one command keeps the target if and only if it lasts no longer than the minutes left, or 6 in the last minute |
| Modes.NeverBelowTarget | energymanager/modes/controller.go:384-431 | over every run of ticks of at most a minute the state of charge never falls below its target |
| Modes.StraightLineToTarget | energymanager/modes/controller.go:384-431 | with one tick a minute and no power limit in the way the power is constant, the charge falls on a straight line and is exactly at its target at sunrise |
| Modes.ModesProtectTheBattery | energymanager/modes/controller.go:193-247 | without an override every setpoint is within the power limit and no mode discharges at its minimum charge |
| Modes.SetpointOfEachMode | energymanager/modes/controller.go:181-248 | the override as it is, otherwise what the deciding mode asks for, and 0 in the manual, zero-grid and unknown modes |
| Modes.ReportInFull | energymanager/modes/controller.go:181-248 | what is shown of the override, the setpoint, the schedule and its period |
| Modes.Controller.constructor | energymanager/modes/controller.go:63-86 | the defaults of a new controller |
| Modes.Controller.UpdateSOC | energymanager/modes/controller.go:173-177 | only the state of charge changes |
| Modes.Controller.FindCurrentSchedulePeriod | energymanager/modes/controller.go:531-583 | the loop over periods and days finds the period in force, none when the schedule is off |
| Modes.Controller.CalculateTOU | energymanager/modes/controller.go:250-308 | the loop and the charge limits are the time-of-use setpoint |
| Modes.Controller.Calculate | energymanager/modes/controller.go:181-248 | the setpoint and what is shown of it: override, schedule, mode, clamp |
| ControlLoop.StepStaysWithin | energymanager/cmd/energymanager/main.go:772-825 | one tick or settings change keeps the controller in its limits and commands no more than them without an override |
| ControlLoop.CommandsStayWithin | energymanager/cmd/energymanager/main.go:772-825 | so does every run, whatever the settings are changed to between ticks |
| ControlLoop.CommandSlotsKnown | energymanager/cmd/energymanager/main.go:772-825 | in every run, with connections at any time, the slot commanded is none or one a scan can find |
| ControlLoop.EveryPowerFrameIsBounded | energymanager/cmd/energymanager/main.go:772-825 | in every run from a driver not yet connected, for any PID configuration, a command writes nothing until a slot is known and then one power frame, which decodes to a slot in 129..241 and to the negated whole watts of the clamped command; with PID limits inside the inverter's limit only an override is ever cut by it |
| ControlLoop.OneCommandPerDueTick | energymanager/cmd/energymanager/main.go:738-825 | a run sends exactly the commands told from the settings, the readings and a run of the PID controller: at each tick with a valid inverter and an override, valid grid data or a simulated load, the override's value, or what the enabled controller gives for the metered or simulated grid power, or 0; none at any other tick |
| ControlLoop.EachCommandIsOneFrame | energymanager/cmd/energymanager/main.go:808-825 | the frames of a run byte by byte: each command with a slot known writes one power frame with the slot and the negated whole watts, held to the limit |
| ControlLoop.SimulatedLoadActsAsMeter | energymanager/cmd/energymanager/main.go:772-825 | a simulated load is ignored while the meter is valid and otherwise acts exactly as a meter that reads its value |
| ControlLoop.ZeroGridKeepsTheOldSetpoint | energymanager/cmd/energymanager/main.go:789-796 | after any run in the zero-grid and manual modes the PID setpoint is the one an earlier mode left |
| ControlLoop.SetpointIsTheLastAsked | energymanager/cmd/energymanager/main.go:783-796 | after any run the PID setpoint is what the last mode that steers asked for at its last tick |
| ControlLoop.SilentTickLeavesControllerIff | energymanager/cmd/energymanager/main.go:772-825 | a tick that sends nothing, with the clock moved on, leaves the controller as it was if and only if there is none, or it is disabled and its setpoint is already the one asked for |
| ControlLoop.BlindTicksWindUp | energymanager/cmd/energymanager/main.go:772-825 | any number of ticks without grid data in the zero-grid and manual modes send nothing, and the integral grows as if the power left in the reading were measured for all their time, up to its limit |
| ControlLoop.Loop.RunTick | energymanager/cmd/energymanager/main.go:738-825 | one tick of the objects is one step of the system and writes exactly its power frames |
| ControlLoop.Loop.Decide | energymanager/cmd/energymanager/main.go:772-806 | mode, setpoint and PID update in order, with the simulated load in place of missing grid data |
| ControlLoop.Loop.Measure | energymanager/cmd/energymanager/main.go:724-758 | the battery monitor's state of charge goes before the inverter's |
| Rrd.EnergyBalance | energymanager/rrd/rrd.go:94-112 | imported less exported energy is the sum of the trapezoids over neighbours less than an hour apart, for any history |
| Rrd.MeteredStep | energymanager/rrd/rrd.go:94-108 | one sample adds one trapezoid and no total ever falls |
| Rrd.MeteredInNumbers | energymanager/rrd/rrd.go:94-112 | one sample in numbers: the mean power over the hours between joins the imported or the exported energy, under the conditions of the code |
| Rrd.TotalsNeverFall | energymanager/rrd/rrd.go:110-118 | the stored totals never fall along an archive |
| Rrd.KeptFromThinned | energymanager/rrd/rrd.go:120-137 | dropping the oldest samples early makes no difference to what is kept later |
| Rrd.OneSampleMore | energymanager/rrd/rrd.go:120-137 | a sample is retained if and only if it is the first or comes at least the resolution after the last one retained, with the totals of that moment, and archives follow |
| Rrd.RetainedGaps | energymanager/rrd/rrd.go:121-129 | neighbours in an archive are at least its resolution apart, whatever the clock did |
| Rrd.RetainedIncrease | energymanager/rrd/rrd.go:121-129 | retained times strictly increase, by the resolution for every place between |
| Rrd.NothingUntilCaughtUp | energymanager/rrd/rrd.go:121-129 | after the clock jumps back nothing is stored until it has caught up |
| Rrd.RingPush | energymanager/rrd/rrd.go:131-136 | a write to the circular array appends, and drops the oldest when full |
| Rrd.Archive.constructor | energymanager/rrd/rrd.go:77-81 | an empty archive of its size |
| Rrd.Archive.Add | energymanager/rrd/rrd.go:120-137 | the circular write refines keeping the last samples that come late enough |
| Rrd.Archive.All | energymanager/rrd/rrd.go:153-160 | the samples are copied out oldest first |
| Rrd.RRD.constructor | energymanager/rrd/rrd.go:84-86 | an empty history |
| Rrd.RRD.Add | energymanager/rrd/rrd.go:90-118 | after any adds every archive holds the last samples of the thinned history, and the meter is that of the history |
| Rrd.RRD.Accumulate | energymanager/rrd/rrd.go:94-108 | the energy since the sample before is added to one of the totals |
| Rrd.RRD.AddToArchives | energymanager/rrd/rrd.go:114-117 | every archive gets the sample, none disturbs another |
| Rrd.RRD.GetSamples | energymanager/rrd/rrd.go:140-161 | the last samples of the thinned history, nothing for an index out of range |
| Rrd.RRD.GetLatest | energymanager/rrd/rrd.go:164-176 | the newest sample of archive 0 |
| Rrd.RRD.Reset | energymanager/rrd/rrd.go:214-225 | the history is empty again, despite stale slots and the power left behind |
| Rrd.HistoryDecidesEverything | energymanager/rrd/rrd.go:214-225 | two databases with the same history since their last reset hold and report the same |
| Rrd.New | energymanager/rrd/rrd.go:65-87 | one archive per configuration, of at least one sample, the defaults for an empty one |
| Rrd.CapacityInNumbers | energymanager/rrd/rrd.go:70-75 | an archive keeps as many samples as the resolution goes into the retention, and at least one |
| Rrd.DefaultArchives | energymanager/rrd/rrd.go:54-63 | by default 288 samples five minutes apart and 720 an hour apart |
| Mqtt.EncodeRemainingLength | energymanager/mqtt/publisher.go:243-257 | the dividing loop writes the length seven bits a byte, lowest first |
| Mqtt.LengthOfLength | energymanager/mqtt/publisher.go:243-257 | the length takes at most k bytes if and only if it is below the kth power of 128 |
| Mqtt.LengthRoundTrip | energymanager/mqtt/publisher.go:243-257 | the reader of section 2.2.3 of MQTT 3.1.1 gets the length back if and only if it is at most 268,435,455, and refuses it otherwise |
| Mqtt.LengthIsMinimal | energymanager/mqtt/publisher.go:243-257 | no shorter sequence of bytes reads as the same length |
| Mqtt.LengthExamples | energymanager/mqtt/publisher.go:243-257 | the values of table 2.4 in section 2.2.3 of MQTT 3.1.1 where the length grows |
| Mqtt.EncodeString | energymanager/mqtt/publisher.go:235-241 | the array holds the two length bytes and the string |
| Mqtt.StringRoundTrip | energymanager/mqtt/publisher.go:235-241 | a string is read back if and only if it has at most 65,535 bytes |
| Mqtt.ConnectReadsBack | energymanager/mqtt/publisher.go:185-208 | a CONNECT body is read as the same client and credentials, a password only with a user name, if and only if the strings fit |
| Mqtt.ConnectInBytes | energymanager/mqtt/publisher.go:185-219 | the CONNECT packet byte by byte, flags and keep-alive among them |
| Mqtt.PublishInBytes | energymanager/mqtt/publisher.go:221-233 | the PUBLISH packet byte by byte |
| Mqtt.PublishReadsBack | energymanager/mqtt/publisher.go:221-226 | a PUBLISH body is read as the same topic and payload if and only if the topic fits |
| Mqtt.PacketReadsBack | energymanager/mqtt/publisher.go:185-233 | a packet anywhere in a stream is read back if and only if its strings and its body fit; if they do not, what is read there is not that message |
| Mqtt.StreamReadsBack | energymanager/mqtt/publisher.go:185-233 | any run of packets is read as exactly the same messages in order if and only if each of them fits |
| Mqtt.BuildConnectPacket | energymanager/mqtt/publisher.go:185-219 | the appended bytes are the CONNECT packet |
| Mqtt.BuildPublishPacket | energymanager/mqtt/publisher.go:221-233 | the appended bytes are the PUBLISH packet |
| Influx.EscapeTag | energymanager/influxdb/writer.go:242-253 | taking away the backslash before each special character gives the string back, for every string |
| Influx.EscapeRoundTrip | energymanager/influxdb/writer.go:242-253 | the same of the escaped form as a function |
| Influx.EscapeInCharacters | energymanager/influxdb/writer.go:242-253 | comma, blank and equals sign get a backslash and nothing else does |
| Influx.TagTextInCharacters | energymanager/influxdb/writer.go:161-170 | each tag is a comma, the escaped key, an equals sign and the escaped value |
| Influx.TokenReadsBack | energymanager/influxdb/writer.go:242-253 | an escaped string before a separator is read back if and only if it does not end in a backslash |
| Influx.TagsReadBack | energymanager/influxdb/writer.go:161-170 | the tag text splits into exactly the tags written if and only if no key or value ends in a backslash |
| Influx.SeriesReadsBack | energymanager/influxdb/writer.go:161-170 | with a plain measurement the whole head of the line is read back under the same condition |
| Influx.WriteSeries | energymanager/influxdb/writer.go:160-170 | the loop writes the measurement and every tag |
| Discovery.IncIP | energymanager/discovery/shelly.go:303-310 | the carry loop in place is the next address |
| Discovery.NextIsPlusOne | energymanager/discovery/shelly.go:303-310 | the next address is plus one on the big-endian value, 0 after the highest |
| Discovery.InBlockIsRange | energymanager/discovery/shelly.go:68 | being in the block is having one of its consecutive values |
| Discovery.FirstOfBlock | energymanager/discovery/shelly.go:68 | the first address is the greatest multiple of the block size that is no more than the network given |
| Discovery.MappedInBytes | energymanager/discovery/shelly.go:68 | the addresses that stand for IPv4 ones are ten bytes 0, two 0xFF and any four |
| Discovery.ContainsIffInBlock | energymanager/discovery/shelly.go:68 | the loop's condition is being in the block, except that an IPv4-mapped address is in no block that is not written as an IPv4 block itself |
| Discovery.LeavesTheBlock | energymanager/discovery/shelly.go:68 | after the last address of a block the next one is outside, also when it wraps to 0 |
| Discovery.ScanNetwork | energymanager/discovery/shelly.go:68-83 | for every network on which the loop ends, it visits consecutive addresses of the block from the first on, and exactly as many as the block has, or as lie before its first IPv4-mapped address where those are refused |
| Discovery.VisitedIff | energymanager/discovery/shelly.go:68-83 | an address is visited if and only if it is in the block and no later than the loop gets; none is visited twice |
| Discovery.VisitsTheWholeBlockIff | energymanager/discovery/shelly.go:68-83 | the whole block is visited if and only if it is not a block of other addresses that holds the IPv4-mapped ones |
| Discovery.ZeroPrefixNeverEnds | energymanager/discovery/shelly.go:68 | for an IPv4 network without prefix bits the loop's condition holds of every address and of the next |

## Left out

- VeBus.VEBus.ReceiveFrame: the received checksum is not looked at because the code does not look at it; the deadline is the end of the reads.
- VeBus.PowerFrameDecodes: says nothing of a limit above 32767 W, where the conversion to 16 bits depends on the Go platform; the model wraps there.
- VeBus.VEBus.Connect: the pause before the first request is not modelled, and the version is not logged.
- ControlLoop.Loop.RunTick: the status requests that a tick also writes are not in its log of frames.
- The other VE.Bus exchanges (LED, AC info, snapshot, the wake-up and sleep commands): fixed requests and field copying.
- Mk2.Mk2Ser.UpdateReport: the report is the one offered to the channel; the time stamp, and the drop of a report that nobody waits for, are not modelled.
- Mk2.ScaleLayouts: a raw scale of 0x8000 divides by zero in the code and is excluded; a zero period shows frequency 0.
- Mk2.Mk2Ser.DecodeState: a charge answer cut to fewer than three bytes makes the code read bytes an earlier frame left in its buffer; the buffer behind the frame is not modelled and the result is `None`.
- Write errors and partial writes on the serial ports.
- Discovery.ScanNetwork: requires at least one prefix bit of a 4-byte network, because with none the loop never ends; parsing of the network text, single addresses and the concurrent probes are not modelled.
- Rrd.New: requires a resolution other than 0, for which the code divides by zero; times are unbounded integers, so differences do not saturate.
- Modes.Controller.Calculate: the description texts and the values that are only displayed are not part of its result.
- Modes.NeverBelowTarget: takes a battery that follows the command exactly; efficiency and house load are not modelled.
- Sunrise and sunset trigonometry and its cache: sunrise and sunset are inputs. Days with a clock change are not modelled.
- The setters of the mode controller other than UpdateSOC: a settings change is the event `Configure` of the control loop.
- The control loop's info record, its broadcast and the sample it stores: field copying.
- WebHub: JSON text is represented by the info it encodes, a marshalling failure by a flag; write pumps, pings and the client count are not modelled.
- Goroutine scheduling is any order of steps; real time, locks and memory visibility are not modelled.
- The VE.Direct driver, Modbus and HTTP access, InfluxDB batching and fields, Prometheus and munin output, configuration pages and authentication.
