# libhfp in Dafny

A Dafny model of the parts of libhfp and hfpd whose correctness does not show
in any one function: the timer heap, the audio pump, the packet queue, the
hands-free session, RFCOMM session life cycle, the SDP helper protocol and the
settings file. Everything the source keeps in objects and changes in place is a
class here, with the source's fields and loops. Beside each stands a
specification on values (a map of deadlines, a flat byte sequence, a state
machine), the methods are proved against it, and the theorems about all inputs
and all runs are lemmas about the specification.

`dafny verify dfyconfig.toml` checks everything.

| file | models |
|---|---|
| `Lists.dfy`, `Multiples.dfy`, `Options.dfy` | intrusive lists as sequences; multiples of a packet; optional values |
| `TimerForest.dfy` | the delta-encoded pairing heap as a value, and the map of times left it stands for |
| `TimerMachine.dfy` | set, cancel, run and fire as a state machine; all runs against the map of deadlines |
| `Events.dfy` | timer notifiers and dispatcher of `libhfp/events-indep.cpp`, linked nodes and 32-bit deltas, in place |
| `Xfer.dfy` | `BestXfer` of `libhfp/soundio-pump.cpp` and its optimality |
| `PumpCopy.dfy` | `CopyIn` and `CopyCross` over endpoints that may give less than asked |
| `PumpConfig.dfy` | `ConfigureEndpoints`: levels, windows, packet size |
| `Pump.dfy` | one `AsyncProcess` step: windows, shedding, copying, padding, counters |
| `PacketSeq.dfy` | `PacketSeq` of `include/libhfp/soundio-buf.h`: linked packets, offsets, spare pool |
| `PumpQueue.dfy` | when the pump's dequeuing strands such a queue |
| `Lines.dfy` | the line assembler of `libhfp/hfp.cpp`, which `hfpd/configfile.cpp` has again with another buffer size |
| `CallSetup.dfy` | the presumptive call setup and caller ID machine |
| `AtQueue.dfy` | the AT command queue and clients' pending-command handles |
| `Rfcomm.dfy` | RFCOMM sessions, references and the two reconnect lists of `libhfp/rfcomm.cpp` |
| `Sdp.dfy` | the SDP helper queue of `libhfp/bt.cpp`, both ends of the pipes included |
| `ConfigFile.dfy` | `Save`, `Load`, `Get` and `Set` of `hfpd/configfile.cpp` |

The hands-free protocol is Bluetooth Hands-Free Profile 1.5, section 4.2; the
+CLIP and +CCWA results are those of GSM 07.07, sections 7.6 and 7.11.

## What was found not to hold

Each of these is stated with its exact condition and a member that reaches it.

- `PacketSeq::Dequeue` leaves the write offset of a packet that is gone exactly
  when it empties, across packets, a queue whose last packet is full; the next
  `GetUnfilled` then fails its assertion. A reader that dequeues no more than
  `Peek` showed never gets there (`SoundIoBuf.PacketSeq.Dequeue`, `Peek`;
  reached by `SoundIoBuf.StaleTail`). The audio pump does not peek where it
  sheds and where the sink refuses records; when it gets there is
  `PumpQueue.ShedStale` and `PumpQueue.SkipStale`.
- `ConfigureEndpoints` halves packets to a transfer unit of 0 exactly when a
  clocked endpoint has one-record packets and a minimum that leaves one record
  of its output buffer free at most (`PumpConfig.PacketVanishes`; reached by
  `PumpConfig.PacketCanVanish`). The top input maximum is computed from the
  bottom output minimum and can be 0 (`PumpConfig.TopWindowExact`,
  `PumpConfig.TopWindowCrowded`; reached by `PumpConfig.TopWindowCanVanish`).
- What notifications tell a client about an established call goes wrong exactly
  when service is lost during it: it is never told that the call is over
  (`CallSetup.ShownActive`; reached by `CallSetup.CallEndUntold`).
- A second call's ring that was held back for its caller ID marks the first call
  as ended exactly when the timer tells it (`CallSetup.HeldRingTold`; reached by
  `CallSetup.CallMarkedEnded`).
- If, while the SDP helper shuts down, a callback cancels the task then first in
  line, and only then, the aborted flag stays set, and starting the helper fails
  an assertion unless another stop with nothing queued comes first
  (`Sdp.SdpAsyncTaskHandler.SdpShutdown`, `Sdp.AbortedByNext`; reached by
  `Sdp.StaleAbort`).
- The write of a lookup's request can fail at two moments when sessions are not
  prepared for what follows. If the helper is idle, the request is written within
  the submission, and the lookup is called back before that returns
  (`bt.cpp:222-273`, `1393-1398`): the session does not wait for it yet, and the
  assertion at `rfcomm.cpp:631` fails. If the answer to another lookup has just
  arrived, that lookup is off the queue but has not been called back
  (`bt.cpp:205-219`); everything stops and its session cancels it, and the
  assertion at `bt.cpp:278` fails. Everything claimed about sessions and
  reconnect lists holds exactly unless one of the two happens
  (`Rfcomm.RfcommService.Went`, `Rfcomm.RfcommSession.RfcommConnect`,
  `Rfcomm.RfcommSession.SdpAnswered`, `Sdp.SdpAsyncTaskHandler.SdpDataReady`;
  reached by `Rfcomm.RfcommSession.RfcommSdpLookupChannel` with `WriteFails` and
  by `Sdp.AnswerStranded`).
- A client's command whose own write fails is aborted before the client has its
  handle: a callback is invoked that nobody has registered. That is so exactly
  for a command that finds the queue empty (`AtQueue.HfpSession.SubmitPending`;
  reached by `AtQueue.Unheard`).
- The documentation has clients delete a handle after its callback, or after
  cancelling it. Its destructor then uses the command, which is gone: a handle
  can be touched safely exactly while its command exists
  (`AtQueue.HfpSession.Destroy`, `Cancel`, `TouchedSafely`; reached by
  `AtQueue.Deleted`).
- A client that submits commands from the callbacks of aborted ones can keep a
  disconnect from ending; when it ends is `AtQueue.DisconnectEnds` (reached by
  `AtQueue.NeverDone`).
- A NUL byte from the peer fails an assertion exactly if it starts a line or is
  the last byte of a read behind a whole line (`Lines.LineReader.DataReady`;
  reached by every chunk that starts with one, `Lines.LineReader.NulFirst`).
- Settings of a higher layer are meant to override those of a lower one. They
  do not: `CreateSection` never looks for the section there is, so every file
  gets sections of its own, and lookups find the first. A file's settings are
  seen exactly for sections that no file loaded before has, and the same goes
  for settings saved in one run and loaded in the next
  (`ConfigFiles.FirstFileWins`, `ConfigFiles.ReloadedBehind`; reached by
  `ConfigFiles.OverrideLost`).
- Saving, loading and saving again drops settings whose value is blank, and
  nothing else (`ConfigFiles.SaveAgain`, `ConfigFiles.SaveAgainFilled`; reached
  by `ConfigFiles.BlankDropped`).

The source agrees with its documentation in that a command's callback is invoked
exactly once; this includes a successful `Cancel()`, which invokes it with an
abort before it returns (`AtQueue.HfpSession.Cancel`).

## Model

| member | source | states |
|---|---|---|
| TimerForest.PairAllKeepsCount | libhfp/events-indep.cpp:171-226 | Pairing, both passes with the pushed-down delta, keeps every timer once, at a root path sum exactly the delta higher. |
| TimerForest.PairPassKeepsCount | libhfp/events-indep.cpp:178-202 | The left-to-right pass keeps every path sum but for the delta added at the roots. |
| TimerForest.CollectKeepsCount | libhfp/events-indep.cpp:204-225 | The right-to-left pass keeps every path sum. |
| TimerForest.AddModel | libhfp/events-indep.cpp:228-250 | Adding a timer adds exactly that timer with its timeout to the map of times left. |
| TimerForest.RemoveModel | libhfp/events-indep.cpp:252-261 | Removing a timer at any depth removes exactly it from the map; every other time left is unchanged, and there is still at most one root. |
| TimerForest.RunKeeps | libhfp/events-indep.cpp:263-303 | After a run of `ms` at most one root is left, and the heap holds exactly the timers with more than `ms` left, each with exactly `ms` less. |
| TimerForest.RunFires | libhfp/events-indep.cpp:263-296 | The run list holds exactly the timers with at most `ms` left, each once. |
| TimerForest.HeapOrder | libhfp/events-indep.cpp:271-296 | No timer is put on the run list before a timer above it in the heap. |
| TimerForest.RootIsEarliest | libhfp/events-indep.cpp:446-470 | In any forest, some root has no more time left than a given timer. |
| TimerMachine.SetAgrees | libhfp/events-indep.cpp:149-156 | Setting a timer, armed, ready or idle, moves exactly its deadline to now plus the timeout. |
| TimerMachine.CancelAgrees | libhfp/events-indep.cpp:157-162 | Cancelling removes exactly that timer's deadline, whichever list it is on. |
| TimerMachine.RunAgrees | libhfp/events-indep.cpp:263-303 | Running keeps heap and deadlines in agreement and makes ready exactly the timers due by then. |
| TimerMachine.FireAgrees | libhfp/events-indep.cpp:305-312 | What fires is due, and firing removes exactly that timer. |
| TimerMachine.EveryRun | libhfp/events-indep.cpp:149-313 | Over every sequence of set, cancel, run and fire, heap and run list together are the client's map of deadlines, and what is about to fire is set, not cancelled and due. |
| TimerMachine.NothingLate | libhfp/events-indep.cpp:263-313 | In every reachable state, a run puts on the run list exactly what is due by its end: nothing early, nothing late. |
| TimerMachine.LeftBounded | libhfp/events-indep.cpp:149-313 | In every reachable state no timer is further from being due than the timeout last set on it. |
| Events.BelowLongest | libhfp/events-indep.cpp:171-303 | In every reachable state no path of deltas sums to more than the longest timeout set, which bounds every addition the heap makes. |
| Events.PairTimers | libhfp/events-indep.cpp:171-226 | The in-place loops over linked notifiers build exactly the tree of the two-pass pairing, with no 32-bit wrap. |
| Events.CollectTimers | libhfp/events-indep.cpp:204-225 | The backward loop leaves one tree, the right fold of the list. |
| Events.WalkRoots | libhfp/events-indep.cpp:271-296 | The loop that appends to the list it walks ends, and sorts the timers into expired and surviving as the sweep does. |
| Events.IndepEventDispatcher.AddTimer | libhfp/events-indep.cpp:228-250 | In place: the linked heap afterwards is the forest with the timer added, and the map of times left gains exactly it. |
| Events.IndepEventDispatcher.RemoveTimer | libhfp/events-indep.cpp:252-261 | In place, from the heap at any depth or from the run list: one machine step, the timer idle again, the other times left unchanged. |
| Events.IndepEventDispatcher.RunTimers | libhfp/events-indep.cpp:263-303 | In place: exactly the timers with at most the elapsed time left are on the run list, and all others are nearer by just that; heap and run list are those of the machine step. |
| Events.IndepEventDispatcher.SetTimer | libhfp/events-indep.cpp:149-156 | Whatever state the timer was in, it has exactly the timeout left that was set, a negative one taken as the unsigned number of its bits; one machine step. |
| Events.IndepEventDispatcher.CancelTimer | libhfp/events-indep.cpp:157-162 | Cancel is one machine step and leaves the notifier idle, whether it was linked or not. |
| Events.IndepEventDispatcher.FireNext | libhfp/events-indep.cpp:305-312 | The first timer of the run list is unlinked before its callback. |
| Events.IndepEventDispatcher.SleepTime | libhfp/events-indep.cpp:439-471 | The select timeout never passes any timer's deadline nor the caller's bound, equals one of them, and is infinite exactly if there is neither. |
| Events.Earliest | libhfp/events-indep.cpp:446-467 | The root's stored delta is the least time left of all timers. |
| Xfer.BestXfer | libhfp/soundio-pump.cpp:509-582 | The chosen transfer is optimal among all multiples of the interval: the largest that meets every bound, or else best by importance of what is missed, then cost, then size. |
| Xfer.CostSlope | libhfp/soundio-pump.cpp:544-557 | A window costs nothing inside, and per record below or above it exactly its two weights. |
| Xfer.CostAppend | libhfp/soundio-pump.cpp:541-558 | Costs of windows add up, and the most important window that is missed counts. |
| Xfer.OptimalMeans | libhfp/soundio-pump.cpp:562-582 | Against any other multiple: the largest with no cost; else none misses less important windows only, and of those alike none costs less, or as little and is larger. |
| Xfer.OptimalUnique | libhfp/soundio-pump.cpp:509-582 | That specification determines the transfer uniquely. |
| Xfer.ShorterIsWorse | libhfp/soundio-pump.cpp:522-541 | Below every upper edge a smaller transfer is no better in priority and worse in cost, so nothing before the scanned range can win. |
| Xfer.LongerIsWorse | libhfp/soundio-pump.cpp:522-541 | Above every lower edge a larger transfer is no better in priority and worse in cost, so nothing behind the scanned range can win. |
| Xfer.CostPrio | libhfp/soundio-pump.cpp:544-560 | Cost is positive and a priority is recorded exactly if some bound is missed, as the assertions inside the scan demand. |
| PumpCopy.CopyIn | libhfp/soundio-pump.cpp:82-157 | The buffer receives a prefix of the source and then copies of the last record taken; taken plus padded is what was asked, and it falls short only of a source that has given nothing when asked. |
| PumpCopy.CopyCross | libhfp/soundio-pump.cpp:236-318 | Every record wanted is taken from the source or counted as padding, and accepted by the sink or counted as dropped, short only of endpoints that have given nothing when asked; what the sink accepted is the source's records in order with only repeats between, and the last of it is kept for padding. |
| PumpCopy.YieldsPadded | libhfp/soundio-pump.cpp:141-156 | Padding by repeating the last record keeps the order of what was taken. |
| PumpCopy.PaddedAt | libhfp/soundio-pump.cpp:141-156 | Record by record: what was taken, then the last of it again. |
| PumpCopy.YieldsMeans | libhfp/soundio-pump.cpp:236-318 | Record by record: each is the one at some position of the source, positions never go back, never skip one, and end at the last taken. |
| PumpCopy.YieldsAppend | libhfp/soundio-pump.cpp:258-297 | Pieces copied one after the other make up one ordered run of the source. |
| Pump.LossConfined | libhfp/soundio-pump.cpp:562-576 | If some packet multiple meets all windows of an endpoint that does not tolerate loss, the chosen transfer meets them. |
| Pump.BottomIsSafe | libhfp/soundio-pump.cpp:725-784 | With loss tolerated at the top only, both bottom windows are met whenever some packet multiple meets both. |
| Pump.Priced | libhfp/soundio-pump.cpp:725-781 | The windows charge a transfer one for each input record left over, two for each that is not there, two for each output record short and one for each too many, and rank it by whether an endpoint that tolerates no loss has any. |
| Pump.LeastLoss | libhfp/soundio-pump.cpp:725-784 | In records: the chosen multiple of the packet size loses nothing if one does, and is then the largest such; else it spares an endpoint that tolerates no loss if any does, and among those alike loses least, the largest of equals. |
| Pump.LossFreeStep | libhfp/soundio-pump.cpp:725-1024 | If the four windows share a packet multiple, a step between clocked endpoints that honour requests moves no loss counter, and all four levels change by exactly the transfer. |
| Pump.MovedExactly | libhfp/soundio-pump.cpp:936-964 | In such a step each sink gets exactly the next records of its source and nothing else. |
| Pump.FlowBounded | libhfp/soundio-pump.cpp:834-1024 | After any step an output level is between its minimum and the larger of its former level and its maximum; a clocked input level is above its maximum by at most what its endpoint failed to give, so not at all if that gave what was asked. |
| Pump.FlowLossless | libhfp/soundio-pump.cpp:834-925 | A direction whose windows are both met drops nothing and pads nothing. |
| Pump.SoundIoPump.AsyncProcess | libhfp/soundio-pump.cpp:599-1024 | One step from the levels reported, asked for or tracked: the transfer is optimal; source, sink and all twelve counters balance, record for record; each sink holds what was moved and then repeats of the last record it was ever given; and the level bounds hold after every step. |
| Pump.TrimInput | libhfp/soundio-pump.cpp:834-862 | An input above its maximum even after the transfer loses exactly the excess from the front; the transfer is limited to what is there. |
| Pump.TrimOutput | libhfp/soundio-pump.cpp:863-880 | An output transfer is limited to the room below the maximum. |
| Pump.OutputSilence | libhfp/soundio-pump.cpp:323-375 | Padding appends copies of one record, as many as the endpoint takes; with CopyCross and AsyncProcess that is the last record accepted. |
| PumpConfig.ConfigureEndpoints | libhfp/soundio-pump.cpp:1417-1641 | Succeeds exactly for a clocked endpoint with buffers of four packets, and then gives clocked endpoints a minimum of two packets, a maximum inside the buffer and a window of a packet, and the halved packet size. |
| PumpConfig.SamplesAre | libhfp/soundio-pump.cpp:1456-1485 | Configured times are so many samples, but two of the largest packets at least. |
| PumpConfig.LevelsAre | libhfp/soundio-pump.cpp:1486-1547 | Minimum and maximum in full: configured minimum and window, or two packets and the minimum again, as far as the buffer goes. |
| PumpConfig.PacketIs | libhfp/soundio-pump.cpp:1610-1636 | The packet size is the smaller one of the clocked endpoints halved, and only until two of it fit into every clocked minimum and window. |
| PumpConfig.OutputLevels | libhfp/soundio-pump.cpp:1490-1547 | Minimum and maximum of one output as the limits and the configured times demand. |
| PumpConfig.FitPacket | libhfp/soundio-pump.cpp:1610-1636 | The halving loop ends at the first size that half of every clocked minimum and window can hold. |
| PumpConfig.HalvedFits | libhfp/soundio-pump.cpp:1619-1636 | The halved size is positive exactly if it started positive and there is room for a record, and is more than half of the limit. |
| PumpConfig.PacketPositive | libhfp/soundio-pump.cpp:1610-1636 | The packet size is positive exactly if every clocked window has room for two records; packets of two records or more suffice. |
| PumpConfig.PacketVanishes | libhfp/soundio-pump.cpp:1417-1641 | In terms of what is asked for: the packet size vanishes exactly if a clocked endpoint has one-record packets and its minimum fills the output buffer but for a record. |
| PumpConfig.PacketCanVanish | libhfp/soundio-pump.cpp:1529-1537 | Packets of one record in a buffer of four are halved to nothing: a configuration where the transfer unit is 0. |
| PumpConfig.WindowsHavePackets | libhfp/soundio-pump.cpp:725-781 | At every level the bottom input window and both output windows contain a whole packet. |
| PumpConfig.InWindowExact | libhfp/soundio-pump.cpp:726-735 | A clocked input window contains a packet at every level exactly if its maximum is at least a packet less one. |
| PumpConfig.TopWindowExact | libhfp/soundio-pump.cpp:1486-1641 | In terms of what is asked for: exactly when the top input window holds a packet at every level. |
| PumpConfig.TopWindowCrowded | libhfp/soundio-pump.cpp:1486-1641 | In closed form: exactly when the top buffer ends less than a packet above the bottom minimum; where it ends below, the difference wraps around. |
| PumpConfig.TopWindowCanVanish | libhfp/soundio-pump.cpp:1604-1608 | The top input maximum is taken against the bottom output minimum and can be 0, with no packet in the window. |
| SoundIoBuf.WindowLength | include/libhfp/soundio-buf.h:181-188 | The fill formula over packets and offsets is the length of the flat sequence. |
| SoundIoBuf.WindowGrow | include/libhfp/soundio-buf.h:210-215 | Moving the tail offset appends exactly the bytes it passes. |
| SoundIoBuf.WindowSkip | include/libhfp/soundio-buf.h:253-261 | Moving the head offset drops exactly that many bytes. |
| SoundIoBuf.WindowExtend | include/libhfp/soundio-buf.h:197-201 | A new packet behind a full one changes nothing in the sequence. |
| SoundIoBuf.PacketSeq.GetBuffer | include/libhfp/soundio-buf.h:137-148 | A spare packet is taken from the pool, or a new one made, unlinked. |
| SoundIoBuf.PacketSeq.PutBuffer | include/libhfp/soundio-buf.h:150-158 | A packet goes to the front of the pool unless that holds more than ten. |
| SoundIoBuf.PacketSeq.TotalFill | include/libhfp/soundio-buf.h:181-188 | The fill in records is the length of the contents. |
| SoundIoBuf.PacketSeq.BytesAre | include/libhfp/soundio-buf.h:181-188 | Records are `bpr` bytes each, there and back. |
| SoundIoBuf.PacketSeq.GetUnfilled | include/libhfp/soundio-buf.h:190-208 | Hands out at least one record's room behind the contents, which stay as they are. |
| SoundIoBuf.PacketSeq.PutUnfilled | include/libhfp/soundio-buf.h:210-215 | The contents grow by exactly the bytes the tail offset passes. |
| SoundIoBuf.PacketSeq.Peek | include/libhfp/soundio-buf.h:217-232 | Shows a prefix of the contents, empty only if they are, and never so much that dequeuing it meets the exception of Dequeue. |
| SoundIoBuf.PacketSeq.Dequeue | include/libhfp/soundio-buf.h:246-293 | Drops exactly the first records, for every count up to the fill; the queue stays usable exactly if this does not empty a full last packet behind others, where the tail offset goes stale. |
| SoundIoBuf.StaleTail | include/libhfp/soundio-buf.h:266-293 | Draining two full packets in one call reaches the state that the assertion in GetUnfilled rejects. |
| SoundIoBuf.PacketSeq.Clear | include/libhfp/soundio-buf.h:167-179 | Empties the queue and repairs that state. |
| SoundIoBuf.PacketSeq.CollectBuffers | include/libhfp/soundio-buf.h:160-165 | Empties the pool and leaves the queue. |
| SoundIoBuf.PacketSeq.SetPacketSize | include/libhfp/soundio-buf.h:295-300 | Starts over with empty queue and pool and the new size in bytes. |
| SoundIoBuf.ReadOnce | libhfp/hfp.cpp:1244-1283 | A read into the unfilled room takes as many bytes as there are, are offered and have room, and appends exactly the whole records of them; only an offer of none is the end of the connection. |
| SoundIoBuf.PushInput | libhfp/hfp.cpp:1228-1300 | Reading goes on until there is nothing now, the connection is lost or the input is used up, and appends the whole records of every read, in order and over any number of packets. |
| SoundIoBuf.RoundedWhole | libhfp/hfp.cpp:1244-1283 | Nothing of the peer's stream is lost exactly if every read ends with a record; then the stream arrives as it was sent. |
| SoundIoBuf.SendOnce | libhfp/hfp.cpp:1319-1354 | A send offers what is in the first packet in whole link packets, and takes off the queue exactly what the link accepts of it. |
| SoundIoBuf.PushOutput | libhfp/hfp.cpp:1303-1355 | What was sent, followed by what is left, is what the queue held; it ends only when the link accepts nothing or less than a link packet is in the first packet, and keeps the queue usable for ever. |
| PumpQueue.ShedStale | libhfp/soundio-pump.cpp:834-862 | Shedding leaves a packet queue unusable exactly if nothing is transferred, the maximum is 0, and all that is in it, several packets with the last one full, is shed. |
| PumpQueue.SkipStale | libhfp/soundio-pump.cpp:300-318 | A refused transfer leaves it so exactly if the sink refuses all that is still to be moved and that is all there is, in several packets with the last one full. |
| Lines.CutAppend | libhfp/hfp.cpp:1620-1674 | Cutting a stream in two places the same lines: carrying the unfinished line over makes no difference. |
| Lines.ChunkingIrrelevant | libhfp/hfp.cpp:1523-1674 | For every way to cut a stream into chunks, lines and unfinished rest are those of the whole stream. |
| Lines.CutFramed | libhfp/hfp.cpp:1627-1670 | Cutting undoes the framing that audio gateways put around result codes. |
| Lines.CutClean | libhfp/hfp.cpp:1627-1670 | Every line handed on is nonempty, starts with no blank and contains no newline. |
| Lines.CutAt | libhfp/hfp.cpp:1627-1670 | Spaces, tabs, carriage returns and newlines in front of a line are dropped, and either of the latter two ends it. |
| Lines.LineIs | libhfp/hfp.cpp:1617-1618 | Which characters those are. |
| Lines.FitsAppend | libhfp/hfp.cpp:1593-1603 | Reading at most a buffer's worth behind a stream that fits, the only thing that can be too long is the unfinished line. |
| Lines.SaneAppend | libhfp/hfp.cpp:1620-1674 | Whether a NUL byte fails an assertion does not depend on where the stream was cut, where only lines are looked at. |
| Lines.LineReader.Consume | libhfp/hfp.cpp:1620-1674 | One call in place consumes blanks or hands on exactly the first line, or nothing if no line is finished; an assertion can fail only on a NUL that starts a line or ends what is held. |
| Lines.LineReader.ConsumeAll | libhfp/hfp.cpp:1574-1618 | The consume loop ends, hands on exactly the finished lines, keeps the rest, compacts a full buffer, and gives up exactly if an unfinished line fills it. |
| Lines.LineReader.DataReady | libhfp/hfp.cpp:1523-1618 | For all bytes: there is room on every entry; the lines handed on are those of the whole stream however it was cut; unless a handler hung up, an assertion fails exactly if a line starts with NUL or the read ends with one behind a whole line, and otherwise the connection survives exactly if no line fills the buffer. |
| Lines.LineReader.SaneIs | libhfp/hfp.cpp:1627-1664 | Which NUL bytes fail an assertion, in so many words. |
| CallSetup.StepGood | libhfp/hfp.cpp:2719-3005 | Every event keeps: presumed implies an incomplete call, waiting for caller ID implies an incoming one, no call implies no caller, and the client's view of the call setup is right. |
| CallSetup.EveryRun | libhfp/hfp.cpp:2719-3005 | Over all legal interleavings of results, indicators, command answers, timers, connections and disconnections those facts hold, and rings told plus the one held back never outnumber rings received. |
| CallSetup.SetupIndicated | libhfp/hfp.cpp:2753-2763 | Field by field: call setup at 0 clears it and the caller, at 2 and 3 settles it, told and no longer presumed; at 1 nothing changes, and other values disconnect. |
| CallSetup.CallIndicated | libhfp/hfp.cpp:2733-2752 | Field by field: the call indicator settles whether a call is established, and one that is clears a setup that was only presumed. |
| CallSetup.OtherIndicated | libhfp/hfp.cpp:2764-2795 | Field by field: loss of service clears call and setup; any other indicator leaves them. |
| CallSetup.Ringing | libhfp/hfp.cpp:2856-2960 | Field by field: RING and +CCWA, from every state of setup and caller ID. |
| CallSetup.ClipTaken | libhfp/hfp.cpp:2888-2940 | Field by field: +CLIP settles the caller and tells a ring held back for it. |
| CallSetup.Dialled | libhfp/hfp.cpp:3301-3309 | Field by field: an accepted dial command presumes an outgoing call, unless one is known with none established. |
| CallSetup.Cleared | libhfp/hfp.cpp:2799-2812 | Field by field: an accepted answer or hang up, and a presumption not confirmed in time, clear the setup and the caller. |
| CallSetup.ClipMissed | libhfp/hfp.cpp:2814-2821 | Field by field: the caller ID timer tells the ring, without a caller and as if there were no other call. |
| CallSetup.ConnectedOrLost | libhfp/hfp.cpp:739-783 | Field by field: what the handshake and the loss of the connection leave. |
| CallSetup.LeavesWaiting | libhfp/hfp.cpp:2814-2834 | A held back ring is told exactly once while the call is coming in, or the incoming call is gone and it is never told; its timer always tells it. |
| CallSetup.RingAnswered | libhfp/hfp.cpp:2888-2960 | A ring is told at once or held back, and held back exactly if no caller ID came with it and one is still awaited or can be. |
| CallSetup.ShownActive | libhfp/hfp.cpp:2733-2772 | What notifications tell the client about an established call goes wrong in exactly one case: service is lost during the call. |
| CallSetup.CallEndUntold | libhfp/hfp.cpp:2742-2772 | A legal run that ends so: a call, then loss of service. |
| CallSetup.CallWaitingKept | libhfp/hfp.cpp:2090-2096 | A second call announced during a first leaves that marked active, and is told at once if its caller is known. |
| CallSetup.HeldRingTold | libhfp/hfp.cpp:2814-2834 | A held back ring of a second call leaves the first one marked active exactly if it is not the caller ID timer that tells it. |
| CallSetup.CallMarkedEnded | libhfp/hfp.cpp:2814-2821 | A legal run in which the timer does: the first call is marked ended. |
| CallSetup.HfpSession.UpdateCallSetup | libhfp/hfp.cpp:2856-3005 | The in-place routine with all its assertions computes the update, sets the presumption timer exactly if it presumes, and keeps the caller ID timer set exactly while waiting. |
| CallSetup.HfpSession.ClearClip | libhfp/hfp.cpp:2823-2834 | Forgets the caller; the assertion about the stored value holds. |
| CallSetup.HfpSession.Disconnect | libhfp/hfp.cpp:739-783 | Losing the connection clears call setup, caller and both timers. |
| CallSetup.HfpSession.UpdateIndicator | libhfp/hfp.cpp:2719-2795 | Call, call setup and service indicators have exactly the effect of the model's step, in the source's order of precedence; only a change of the call indicator can end, instead, in the disconnection that a client asks for in the middle. |
| CallSetup.HfpSession.ResponseRing | libhfp/hfp.cpp:2076-2079 | RING is one step. |
| CallSetup.HfpSession.ResponseClip | libhfp/hfp.cpp:2081-2088 | +CLIP is one step, whether it could be parsed or not. |
| CallSetup.HfpSession.ResponseCcwa | libhfp/hfp.cpp:2090-2096 | +CCWA is one step. |
| CallSetup.HfpSession.AtdOk | libhfp/hfp.cpp:3301-3309 | An accepted dial command presumes an outgoing call unless one is known. |
| CallSetup.HfpSession.ClearCallSetupOk | libhfp/hfp.cpp:3318-3322 | An accepted answer or hang up command clears the call setup. |
| CallSetup.HfpSession.Timeout | libhfp/hfp.cpp:2799-2812 | When the presumption timer runs down, all the assertions hold and the call setup is cleared. |
| CallSetup.HfpSession.ClipTimerExpired | libhfp/hfp.cpp:2814-2821 | When the caller ID timer runs down, its assertions hold and the ring is told. |
| Rfcomm.RfcommService.AddAutoReconnect | libhfp/rfcomm.cpp:177-197 | The session is appended to one list and that list's timer is armed if the service runs. |
| Rfcomm.RfcommService.RemoveAutoReconnect | libhfp/rfcomm.cpp:199-218 | The session is off every list and the timer of an emptied list is cancelled. |
| Rfcomm.RfcommService.AutoReconnectTimeout | libhfp/rfcomm.cpp:142-175 | Whatever attempts and client callbacks do meanwhile, any number of calls on any sessions included, exactly unless the write of a lookup's request fails: every session of the list is tried exactly once and a lookup asked for on its behalf, unless it is taken off before its turn; no other is tried; and what is left is tried again after the configured delay, with lists, timers and references in order. |
| Rfcomm.RfcommSession.AutoReconnect | libhfp/hfp.cpp:795-801 | One attempt asks for a lookup for this session before anything else happens, and if it is under way the client is told. |
| Rfcomm.RfcommService.Start | libhfp/rfcomm.cpp:220-259 | Starting arms the timer of every nonempty list, to run down at once. |
| Rfcomm.RfcommService.Stop | libhfp/rfcomm.cpp:261-274 | Stopping disarms both timers and keeps the lists. |
| Rfcomm.RfcommService.RfcommListenNotify | libhfp/rfcomm.cpp:276-313 | The connection is taken for a session that is disconnected, found or new; and the reference taken to find it is returned: a found session has as many as before, a new one none but its own. |
| Rfcomm.RfcommSession.SetAutoReconnect | libhfp/rfcomm.cpp:572-587 | Turning automatic reconnection on or off keeps references, lists and timers in order; turned on while disconnected, the session joins the list that is tried at once. |
| Rfcomm.RfcommSession.RfcommSdpLookupChannel | libhfp/rfcomm.cpp:589-622 | A submitted lookup takes a reference and the session off the lists; a refused one changes nothing; one whose own write fails is called back before it returns and finds the session not waiting, and exactly then the assertion fails. |
| Rfcomm.RfcommSession.RfcommConnect | libhfp/rfcomm.cpp:858-873 | Connecting starts a lookup from the disconnected state only; the same assertion fails exactly if that lookup's write does. |
| Rfcomm.RfcommSession.RfcommSdpLookupChannelComplete | libhfp/rfcomm.cpp:625-672 | After a lookup the session goes on to connecting exactly if it succeeded and a socket could be had, and else to disconnected, and then the client is told; the lookup's reference is returned on every path. |
| Rfcomm.RfcommSession.StartConnecting | libhfp/rfcomm.cpp:763-775 | A started attempt holds its own reference and is on no list, also when it completes at once. |
| Rfcomm.RfcommSession.RfcommConnectNotify | libhfp/rfcomm.cpp:811-856 | The end of an attempt passes through connected, and any failure disconnects. |
| Rfcomm.RfcommSession.RfcommAccept | libhfp/rfcomm.cpp:784-809 | An inbound connection is taken exactly by a disconnected session, which leaves its list. |
| Rfcomm.RfcommSession.RfcommOperationTimeout | libhfp/rfcomm.cpp:909-922 | An operation timer only runs down while there is something to disconnect. |
| Rfcomm.RfcommSession.Disconnect | libhfp/rfcomm.cpp:981-1013 | Everything held is released, with the assertions on what may be held, the reconnect list is entered again, and one reference is returned, whatever calls clients make from the callbacks before and after, and however deep those nest; the assertion that a lookup is still queued fails exactly if its answer is in hand. |
| Rfcomm.RfcommSession.SdpAnswered | libhfp/bt.cpp:205-219 | An answer arrives: all is in order afterwards exactly unless the next request's write fails, or that of a lookup submitted from a callback. |
| Rfcomm.RfcommService.InvoluntaryStop | libhfp/bt.cpp:1392-1416 | Everything stops: lookups are told, every session is disconnected and stays so, timers are off and lists in order, with whatever clients do meanwhile, exactly unless an answer was in hand. |
| Rfcomm.RfcommService.DisconnectAll | libhfp/bt.cpp:1850-1866 | With the hub stopped, every session ends up disconnected; none can be, and an assertion fails, if an answer is in hand. |
| Rfcomm.RfcommSession.Unreferenced | libhfp/rfcomm.cpp:564-570 | A session without references is disconnected, holds nothing and is on no list, as its destructor asserts. |
| AtQueue.StepGood | libhfp/hfp.cpp:2173-2306 | Every event keeps one command outstanding at most, the last one sent and the head of the queue, and no command is sent twice. |
| AtQueue.EveryRun | libhfp/hfp.cpp:2173-2306 | The same over every run. |
| AtQueue.SubmitIs | libhfp/hfp.cpp:2188-2222 | In full: a command that finds the queue empty is written at once; another goes behind the first or to the end. |
| AtQueue.AnswerIs | libhfp/hfp.cpp:2173-2183 | In full: a final answer takes the first command off and the next one is written; a failed write takes all. |
| AtQueue.WithdrawIs | libhfp/hfp.cpp:2295-2306 | In full: what is called off is gone from its place and the rest keeps its order. |
| AtQueue.UpDownIs | libhfp/hfp.cpp:739-748 | In full: with the connection goes the queue. |
| AtQueue.OrderKept | libhfp/hfp.cpp:2188-2222 | No event but a submission at the top changes the order of what is sent and to be sent. |
| AtQueue.SubmissionOrder | libhfp/hfp.cpp:2188-2222 | Over every run without submissions at the top, commands go out in submission order. |
| AtQueue.NothingLost | libhfp/hfp.cpp:2173-2222 | While writes succeed and nothing is withdrawn, every submitted command has been sent or is waiting. |
| AtQueue.HfpSession.AddCommand | libhfp/hfp.cpp:2188-2222 | A command is appended, or put behind the outstanding one, and started if the queue was empty; refused, its client is told it was aborted. |
| AtQueue.HfpSession.StartCommand | libhfp/hfp.cpp:2278-2293 | The head is put on the wire and the timer armed; a failed write disconnects. |
| AtQueue.HfpSession.DropFirst | libhfp/hfp.cpp:2173-2183 | The head is unlinked, its client told of an abort if nothing was told before, the timer cancelled. |
| AtQueue.HfpSession.Respond | libhfp/hfp.cpp:1644-1654 | The outstanding command takes the line; OK and ERROR finish it, and its client is told of success or rejection, may submit, call off and delete what it likes from the callback, and then the next command is sent; of the others only those called off, or cut off with the connection, hear of an abort. |
| AtQueue.HfpSession.ClientActs | libhfp/hfp.cpp:2188-2306 | Whatever a client does from that callback is a run of submissions and withdrawals behind the outstanding command; nothing is written. |
| AtQueue.HfpSession.Resubmit | libhfp/hfp.cpp:2188-2257 | A command submitted from a callback while its predecessor is still the head is appended and nothing is sent. |
| AtQueue.HfpSession.SubmitPending | libhfp/hfp.cpp:2224-2257 | A handle is returned for a command that got into the queue, and it is waiting there; exactly if the queue was empty and the command's own write fails, a callback is invoked that nobody has registered. |
| AtQueue.Unheard | libhfp/hfp.cpp:2244-2254 | The first command of a new session, not taken by the peer, ends so. |
| AtQueue.HfpSession.Cancel | libhfp/hfp.cpp:2295-2306 | Exactly a command that is not outstanding can be called off, and its client is told of the abort once; a handle whose command is gone must not be used. |
| AtQueue.HfpSession.Destroy | libhfp/hfp.cpp:1499-1519 | A handle deleted while it waits never hears anything; it can be deleted safely exactly while its command exists. |
| AtQueue.HfpSession.TouchedSafely | include/libhfp/hfp.h:544-550 | Between events that is exactly before its callback, where the documentation asks for it to be deleted after. |
| AtQueue.Deleted | include/libhfp/hfp.h:544-550 | A client that follows the documentation uses a command that is gone. |
| AtQueue.DisconnectEnds | libhfp/hfp.cpp:744-747 | If clients submit again from the callbacks of aborted commands, the loop that empties the queue ends exactly if at some turn no more has been submitted than the turns have taken. |
| AtQueue.NeverDone | libhfp/hfp.cpp:744-747 | With one command submitted for each that is aborted it never does. |
| AtQueue.HfpSession.Disconnect | libhfp/hfp.cpp:739-748 | Every client still waiting is told of the abort once, and no other. |
| AtQueue.HfpSession.CommandTimeout | libhfp/hfp.cpp:2160-2171 | A command timeout disconnects, which aborts everything waiting once. |
| AtQueue.HfpSession.CalledBackOnce | include/libhfp/hfp.h:537-538 | When the queue is empty every handle that was not discarded has been called back exactly once. |
| Sdp.SdpAsyncTaskHandler.SdpQueue | libhfp/bt.cpp:253-273 | A task is appended, and its request sent exactly if nothing is outstanding; if that write fails, the task has been told of the failure when the call returns. |
| Sdp.SdpAsyncTaskHandler.InvoluntaryStop | libhfp/bt.cpp:1392-1416 | Every task still queued is told of the failure; that sessions then cancel what they have not been told about fails an assertion exactly if an answer is in hand. |
| Sdp.SdpAsyncTaskHandler.SdpNextQueue | libhfp/bt.cpp:222-251 | The first task's request is the one outstanding; a failed write stops everything, which fails that assertion exactly if an answer is in hand. |
| Sdp.SdpAsyncTaskHandler.SdpCancel | libhfp/bt.cpp:275-282 | A cancelled task is off the queue, and its request, if it is the one outstanding, is marked aborted. |
| Sdp.SdpAsyncTaskHandler.SdpDataReady | libhfp/bt.cpp:174-220 | A response to a cancelled request is thrown away; any other reaches the task whose question it answers, which alone is called back, once; the next request follows. An assertion fails exactly if an answer is for a task, another one waits, and the write of its request fails. |
| Sdp.AnswerStranded | libhfp/bt.cpp:205-219 | Two lookups, the first answered, the second one's request not written: the first is never called back. |
| Sdp.SdpAsyncTaskHandler.SdpShutdown | libhfp/bt.cpp:368-406 | For callbacks that cancel any tasks: exactly the tasks that none of them cancels before their turn are told of the failure, once; the aborted flag is left standing exactly if one cancelled the task then first in line. |
| Sdp.AbortedByNext | libhfp/bt.cpp:398-406 | In terms of what the callbacks cancel: the flag is left standing exactly if one of them hits the first task of what remains. |
| Sdp.StaleAbort | libhfp/bt.cpp:285-297 | Two waiting lookups, the second cancelled from the first one's callback: the assertion in SdpCreateThread would fail. |
| Sdp.SdpAsyncTaskHandler.SdpCreateThread | libhfp/bt.cpp:285-365 | Starting requires that no request is thought to be in flight. |
| Sdp.SdpAsyncTaskHandler.HelperRead | libhfp/bt.cpp:147-158 | The helper takes the one request in the pipe. |
| Sdp.SdpAsyncTaskHandler.HelperWrite | libhfp/bt.cpp:158-171 | The helper answers the question it read. |
| ConfigFiles.RoundTrip | hfpd/configfile.cpp:148-339 | Reading the text of Save into nothing gives back the written settings, section by section and in order, for all well-formed settings and all layers. |
| ConfigFiles.ParsedWellFormed | hfpd/configfile.cpp:257-339 | Whatever a file holds, the settings read from it are well-formed: all of them can be saved and read back. |
| ConfigFiles.SaveAgain | hfpd/configfile.cpp:425-452 | Saving what was loaded prints the same text exactly if no blank value was printed; otherwise the text is shorter. |
| ConfigFiles.SaveAgainFilled | hfpd/configfile.cpp:425-452 | The second text is that of the sections without their blank settings: those are dropped and nothing else is. |
| ConfigFiles.BlankDropped | hfpd/configfile.cpp:429-444 | A value blanked over a lower layer is printed by the first save and gone after the second. |
| ConfigFiles.ParseEntry | hfpd/configfile.cpp:287-337 | A printed setting is read back as it was. |
| ConfigFiles.ParseSections | hfpd/configfile.cpp:257-339 | Printed sections are read back in order behind those there are. |
| ConfigFiles.CommentIgnored | hfpd/configfile.cpp:266-268 | Comments change nothing, and do not end a section. |
| ConfigFiles.MalformedIgnored | hfpd/configfile.cpp:272-301 | Headers without a name or an end, and settings without a section, '=' or key, change nothing. |
| ConfigFiles.HeaderRead | hfpd/configfile.cpp:270-284 | A header opens a section of its own, blanks in front of the name aside. |
| ConfigFiles.EntryRead | hfpd/configfile.cpp:303-337 | A setting is entered with the blanks around key and value dropped. |
| ConfigFiles.CutSaved | hfpd/configfile.cpp:216-255 | The printed file is cut into exactly the lines that were printed, with nothing left over. |
| ConfigFiles.ConfigFile.Save | hfpd/configfile.cpp:390-470 | The loops print the text of the model, and exactly the settings of this layer or above that have a value or override a lower layer are recorded on it. |
| ConfigFiles.ConfigFile.ParseLine | hfpd/configfile.cpp:257-339 | One line has exactly the effect of the model: comments, headers, malformed lines, trimming, layers. |
| ConfigFiles.SettingEntered | hfpd/configfile.cpp:306-337 | Entering a setting keeps keys distinct and touches no other key; one of this layer or above, or an equal one, stays, and any other is replaced and keeps its lowest layer. |
| ConfigFiles.ParsedBehind | hfpd/configfile.cpp:257-339 | A file is read into sections of its own: its settings never meet another layer's, so the rules for layers never act between files. |
| ConfigFiles.FirstFileWins | hfpd/configfile.cpp:35-56 | After two files a client gets the second one's values exactly for sections the first does not have, whatever their layers. |
| ConfigFiles.OverrideLost | hfpd/configfile.cpp:494-520 | A setting in a file of layer 1 is not overridden by the same setting in a file of layer 2. |
| ConfigFiles.ReloadedBehind | hfpd/configfile.cpp:362-470 | Saved settings are lost at the next start if a file loaded before has a section of the same name. |
| ConfigFiles.SetAndGet | hfpd/configfile.cpp:620-660 | What a client sets is what it gets, and no other setting changes. |
| ConfigFiles.SettingSurvives | hfpd/configfile.cpp:362-660 | What a client sets and has saved is what it gets from that file after a restart, if it is the only one. |
| ConfigFiles.ConfigFile.Get | hfpd/configfile.cpp:494-528 | The value of the first section of that name, with blank as none; a section that is asked for exists from then on. |
| ConfigFiles.ConfigFile.Set | hfpd/configfile.cpp:620-660 | The value goes above all layers and keeps the lowest layer; no value is remembered only over a file's. |
| ConfigFiles.ConfigFile.Load | hfpd/configfile.cpp:148-255 | Read through the 1024-byte buffer in pieces of any size: all of the text is parsed exactly if no line fills the buffer and none starts with NUL, else all settings are dropped or an assertion fails. |
| ConfigFiles.SaveAndLoad | hfpd/configfile.cpp:362-470 | Saving and loading a file gives the written settings exactly if every printed line is shorter than the read buffer, and nothing otherwise. |

## Left out

Timers:
- Circular list links: sibling lists are sequences with the parent in a field, so the pointer surgery of `ListItem` itself is not modelled.
- Timers set or cancelled from a callback are ordinary events between two firings; a second `RunTimers` nested inside a callback is not modelled, nor is what passes between `Set` and the next run.
- Sockets, the wake-up pipe and `select` itself; the clock is a parameter.

Audio pump:
- Endpoints are queues that may give less than asked and report no more than they hold; `honours` singles out those that give all that is asked for, and `dry` and `full` record that one has given nothing when asked.
- Filters (`ProcessOneWay`, `ProcessorLoop`, `CopyOut`, which only filters use), and with them the branch of `OutputSilence` for a partly used buffer.
- Loops and remove-on-exhaust endpoints, drift statistics, the watchdog and starting or stopping the pump.
- PumpConfig.ConfigureEndpoints: negotiation of formats and duplex, a fixed packet size and reconfiguring while running are left out, and so is 32-bit overflow, except in the top input maximum, where the source can really go below zero.
- Xfer.BestXfer: costs and levels are unbounded integers; the source's 32-bit sums are not modelled.
- Pump.SoundIoPump.AsyncProcess: the output drop counter also counts what stood above the maximum before the step; the model counts as the source does and states no meaning for that part.

Packet queue:
- Locking, allocation failure and the abort handling of `SoundIoBufferBaseSync`; what a lost audio connection does beyond ending the reads.

Hands-free session:
- Lines: the model looks at no byte behind those held, where the trimming loops read one. The parsing of result codes into numbers and callers is a parameter.
- CallSetup: client callbacks may disconnect but do nothing else to the session; copying a caller ID never fails; a callback is always registered. Signal, roaming and battery indicators are not kept.
- AtQueue: response handlers do not disconnect from inside and write nothing themselves, as the two-stage operator query does; the only way a write fails is one that disconnects. From a callback that says a command was aborted clients do nothing in the model of the session; what submitting from there does to the loop is stated on the queue alone, for a peer that still takes what is written.
- Where a callback without a client is invoked, or a command that is gone is used, the run ends.
- Audio connections, volume, voice recognition and the handshake's contents.

RFCOMM sessions:
- Sockets, HCI and the SDP lookup are choices of the environment, as is what a client's callback does: any number of calls on any sessions of the service, nested to any depth, but none that stops or starts the hub. Lookups of other services appear only as another one waiting, or not.
- Where an assertion about a lookup fails the run ends; what a program without assertions would do then is not modelled.
- Link security modes, listening, devices, and the deletion of unreferenced sessions by the hub.

SDP helper:
- Callbacks of ordinary responses act after the response is dealt with, as separate events; what a lookup finds is a parameter. Restarting the hub is not modelled.

Settings file:
- ConfigFiles.RoundTrip: settings are well-formed, which is what a key and value need to survive a line of text; all that is read from a file are. A client can set others, and what is read back then is not stated.
- ConfigFiles.ConfigFile.Load: the source parses a last line that is not ended without terminating it; what that enters is not stated.
- Home directory expansion, files that cannot be opened, I/O errors, line numbers in warnings, iteration and typed access.

Everywhere: threads and locks, allocation failure, logging; ALSA, OSS, D-Bus, Qt, libaudiofile and Speex.
