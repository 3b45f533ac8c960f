# piccolo-perf: a verified model of the measurement path and the reporting pipeline

The project models the parts of piccolo-perf whose correctness is not visible in any one function body:

- the TWAMP-Light path: NTP timestamps, packet layout, the four-timestamp round-trip time, the client's sender and
  receiver goroutines, the reflector's serve loops and handlers, and the burst statistics;
- the per-source token bucket of the reflector;
- the reporting pipeline: line protocol, batching writer, ring file with replay, the agent's config fan-out;
- the path-MTU search.

Arithmetic that the code does in 64-bit words is done in words here, with wrap-around and shifts written out
(`Words.dfy`). Loops and methods that update state are methods and classes proved against a specification; goroutines
that share state are interleaved steps, and what is proved holds in every state of every run.

| file | what it models |
|---|---|
| `Words.dfy`, `Bytes.dfy`, `Options.dfy` | uint64 and int64 arithmetic; big-endian records; missing values |
| `NtpTime.dfy` | time to NTP and back |
| `TestPackets.dfy` | request and response, marshalled and unmarshalled |
| `RoundTripTime.dfy` | the round-trip time, from stamps and through real packets |
| `ReflectorServer.dfy`, `Reflector.dfy`, `ReflectorTrace.dfy` | one handled packet; serve loops and handlers as interleaved steps; what the steps of a run amount to |
| `ClientSession.dfy`, `ClientOutcome.dfy`, `ClientTrace.dfy`, `ClientProgress.dfy` | the client as interleaved steps and its invariants; what every run guarantees; which steps its results go back to; how it goes on |
| `RateLimiting.dfy` | the token bucket |
| `BurstStatistics.dfy` | the three copies of the statistics, each with its own loops |
| `MtuSearch.dfy` | the binary search against any probe oracle |
| `Text.dfy`, `LineProtocol.dfy`, `LineParser.dfy` | decimal text and sorting; the printer; a parser that reads its lines |
| `Batching.dfy`, `InfluxWriter.dfy` | cutting into batches; the writer's select loop |
| `LocalStore.dfy`, `StoreRuns.dfy`, `StoreDriver.dfy` | the file and the store's methods; what whole runs keep, deliver and lose; a real store performing them |
| `ConfigBroadcast.dfy` | poller, fan-out and schedulers over one-slot channels |
| `Pipeline.dfy` | forwarding to channel and store; results read back from the writer's bodies |

`dafny verify dfyconfig.toml` checks everything.

## Where the code does less than one might expect

Each item names what is proved about it. Where a wanted property can fail, that is the exact condition under which it
holds, and a concrete case in which it does not.

- **A post can block for good.** A client write that reports an error although its answer has arrived posts a second
  result for the same packet. The results channel has room for one result per packet, so a later post can find it full
  while the collector waits for both goroutines. Once the sender is done, a post blocks in some continuation exactly
  when the receiver is still there and more failed writes have lost their entry that way than entries were overwritten
  (`ClientProgress.BlocksExactly`), and otherwise the results are collected (`CollectedUnlessBlocked`); sessions of any
  number of packets can hang (`ClientOutcome.AnsweredFailureHangs`).
- **The receiver can leave before the packets are sent.** It does so on its first read timeout with an empty map
  (main.go:562-572), so that with an interval above the timeout later answers are never read: a session of any number
  of packets can end with all of them in the map (`ClientOutcome.EarlyExitLosesAnswers`). A receiver that left an empty
  map after the last packet leaves nothing (`NothingLeftAfterAll`).
- **Round-trip times across an NTP rollover.** Stamps lose their era on the wire. The measured value is within one
  nanosecond of the network delays exactly when the reflector's two stamps lie in the same era
  (`RoundTripTime.EndToEnd`); in 2036 ten milliseconds are measured as 136 years (`RolloverIsMeasured`).
- **A trailing backslash, or a special character in a measurement name.** `escape` does not escape backslashes, so a tag
  or key that ends in one swallows the delimiter behind it, and the measurement is printed as it is. Lines are read
  back exactly when there is neither (`LineParser.LineRoundTrip`, `TrailingBackslashIsLost`).
- **A newline in any string** breaks the body it is sent in, and nothing else does (`LineParser.NewlineInLine`,
  `InfluxWriter.WriterConserves`, `Pipeline.NewlineIsLost`).
- **A line of a mebibyte or more** hides itself and what follows it in the store's file from the cap and from replay.
  Nothing is evicted any more, and a flush that completes clears the hidden results without giving them to anyone:
  exactly those with a long result stored before them, or long themselves (`StoreDriver.CompletedFlushGives`).
- **A torn last line** swallows the line appended next (`LocalStore.TornTailSwallowsNextLine`, `TornLineExample`).
- **The deviation is not the same in the three copies.** `main.go` and `agent.go` truncate it to nanoseconds,
  `twamp_measurer.go` does not truncate it at all; how far they differ, and when they do not, is stated exactly
  (`BurstStatistics.DeviationsDiffer`).
- **The store is written after the send.** README.md:409 of the repository says that results are written to the store
  before they are sent upstream. agent.go:700-709 sends to the writer's channel first; a result whose send is cancelled
  never reaches the store (`Pipeline.Forward`).
- **Handlers can outlive a serve loop.** No handler runs from some point on exactly when none is left there and every
  loop has seen the end of the context (`Reflector.NoHandlerFromHereOn`). That holds once all loops have waited, but not
  when only one of two has, or when one returned after a failed read (`SecondLoopStartsLate`, `FailedReadSkipsTheWait`).
- **The response layout** is the code's own: 40 bytes with a one-byte MBZ2, the request echoed in the first fields and
  T3 in `SenderTimestamp`. No conformance to section 4.2.1 of RFC 5357 is claimed.

## Model

| member | source | states |
|---|---|---|
| NtpTime.ProductsFit | main.go:48-58 | No product in either conversion overflows a uint64. |
| NtpTime.Epochs | main.go:38-58 | The offset is 70 years with 17 leap days; the Unix epoch is 0x83AA7E80 seconds on and half a second the top bit of the fraction; era 0 ends with Unix second 2085978495. |
| NtpTime.EncodedValue | main.go:48-52 | For every int64 second, wrap-around included, the timestamp is the second since 1900 modulo 2^32 and the floor of the fraction; the bitwise or adds disjoint halves. |
| NtpTime.DecodedValue | main.go:54-58 | Decoding puts every timestamp into era 0 (1900 to 2036), although the subtraction is done in uint64. |
| NtpTime.FractionLoss | main.go:48-58 | A nanosecond count survives the 32-bit fraction exactly when 5^9 divides it; otherwise one nanosecond is lost. |
| NtpTime.HopValue | main.go:48-58 | One trip over the wire: seconds survive exactly in era 0 and modulo 2^32 always; it loses 0 ns iff 5^9 divides the nanoseconds, otherwise 1 ns. |
| NtpTime.HopsDrift | main.go:48-58 | k trips lose exactly min(k, nsec mod 5^9) nanoseconds and then nothing more. |
| NtpTime.EncodingStrictlyMonotone | main.go:48-52 | Within one era later instants get larger timestamps, at least four units apart. |
| NtpTime.ReverseTrip | main.go:48-58 | NTP to time and back keeps the second and loses 0 to 5 fraction units. |
| NtpTime.ReverseTripIsTight | main.go:48-58 | Both 0 and 5 occur, in every second. |
| Bytes.PutUint | main.go:86-88 | Writing an integer of a given width changes exactly its own bytes, to the big-endian ones. |
| Bytes.ByteOrder | main.go:86-88 | The most significant byte of an integer comes first. |
| Bytes.BytesRoundTrip | main.go:97-99 | Any bytes read as an integer and written again are the same bytes. |
| Bytes.RecordRoundTrip | main.go:83-175 | Reading a record of big-endian fields of any widths gives back every field, whatever follows. |
| TestPackets.RequestFieldOffsets | main.go:97-99 | The fields read from a request are those at bytes 0, 4 and 12. |
| TestPackets.ResponseFieldOffsets | main.go:153-172 | The fields read from a response are those at bytes 0, 4, 12, 14, 16, 24, 28, 36, 38 and 39. |
| TestPackets.RequestLayout | main.go:83-91 | Each field of a request lies at its offset, and the padding is zeros. |
| TestPackets.ResponseLayout | main.go:120-145 | Each field of a response lies at its offset, both MBZ fields as zeros, in 40 bytes. |
| TestPackets.RequestRoundTrip | main.go:83-104 | Unmarshal after Marshal returns sequence number and error estimate bit for bit, the time after one hop, and padding of the same length as zeros. |
| TestPackets.ResponseRoundTrip | main.go:120-175 | Unmarshal after Marshal returns every integer field bit for bit, both MBZ fields as 0, and all three times after one hop; bytes after the first 40 are ignored. |
| TestPackets.TestRequest.MarshalBinary | main.go:83-91 | The buffer filled at offsets is the record of the fields followed by zero padding. |
| TestPackets.TestRequest.UnmarshalBinary | main.go:93-104 | Exactly inputs shorter than 14 bytes are rejected, leaving the structure alone; an exact 14-byte packet keeps the old padding. |
| TestPackets.TestResponse.MarshalBinary | main.go:120-145 | The buffer filled at a moving offset is the record of the fields. |
| TestPackets.TestResponse.UnmarshalBinary | main.go:148-175 | Exactly inputs shorter than 40 bytes are rejected, leaving the structure alone; otherwise every field is taken from its place. |
| RoundTripTime.ExchangeAnswers | main.go:429-455 | A request taken through the wire, the handler and the wire back yields an answer to that request that carries T2 and T3 after one hop each. |
| RoundTripTime.MeasuredRTT | main.go:183-189 | The measured value exactly: delay plus the two hop losses plus one era per rollover between T2 and T3, never below zero. |
| RoundTripTime.EndToEnd | main.go:183-189 | For any clock offset between the hosts, the value is within 1 ns of the two network delays if and only if T2 and T3 lie in the same NTP era. |
| RoundTripTime.RolloverIsMeasured | main.go:183-189 | A concrete exchange across the 2036 rollover: 10 ms on the network are measured as 2^32 s and 10 ms. |
| RoundTripTime.HoppedStamps | main.go:183-189 | The same for stamps alone: whatever T1, offset and processing time. |
| ReflectorServer.Server.HandleTestPacket | main.go:421-464 | Exactly packets of at least 14 bytes are answered, each with the next number modulo 2^32; the client reads back the echoed fields, T2 and T3; the counter and the callback move exactly when the write succeeds. |
| ReflectorServer.AnswerBytes | main.go:440-449 | Byte by byte: sequence number and error estimate come back unchanged, T2 lies at byte 16, the issued number at 24, T3 at 28, then 0x8001 or 0x0001 by clock synchronization, 0, and TTL 64. |
| ReflectorServer.EchoedTimestamp | main.go:440-449 | The T1 echoed to the client is its own, at most five fraction units early and in the same second. |
| Reflector.SlotsHeldKept | main.go:412-425 | Every step keeps: taken slots = running handlers + loops about to start one, at most 100. |
| Reflector.GroupMembersKept | main.go:413-425 | Every step keeps: the wait group counts the started handlers and the loops that joined for one. |
| Reflector.IntakeKept | main.go:387-438 | Every step keeps: accepted = numbered + rejected + still on the way. |
| Reflector.OutcomesKept | main.go:435-455 | Every step keeps: numbered = reflected + failed writes + still being answered. |
| Reflector.RunInvariant | main.go:354-464 | All invariants hold in every state of every run of any number of serve loops. |
| Reflector.HandlersAreBounded | main.go:412-425 | At most 100 handlers run at once, and a finished one can always free its slot and leave the group. |
| Reflector.WaitsOnlyForASlot | main.go:412-413 | A loop with a packet can take a slot if and only if fewer than 100 are held by running handlers and by loops about to start one. |
| Reflector.NumbersIssued | main.go:435-438 | The numbers taken are 1, 2, 3, ... modulo 2^32 with no gap, and none repeats if and only if at most 2^32 are taken. |
| Reflector.AnswersCarryOwnNumbers | main.go:435-455 | No two answers written carry the same number, below 2^32. |
| Reflector.ReflectionsAddUp | main.go:435-458 | Callbacks <= reflected <= answers written, reflected <= issued <= accepted; once no handler is left, every number led to a reflection or a failed write, and callbacks equal reflections. |
| ReflectorTrace.EveryPacketIsSortedOut | main.go:427-459 | In terms of steps: numbers never outrun valid packets nor rejections invalid ones; once nothing is on the way, each valid packet was numbered and led to a counted answer, with a callback if there is one, or to a failed write, and each other was rejected. |
| ReflectorTrace.RunsArePerformed | main.go:375-464 | The runs are exactly what sequences of steps perform. |
| Reflector.InternalStepsWork | main.go:412-464 | Each step of a handler, and each step of a loop that holds a slot, reduces the work left. |
| Reflector.HeldUpLoopProceeds | main.go:375-415 | A loop held up by the semaphore or by its wait proceeds: from every reachable state the others' own steps lead to one in which its own step is possible. |
| Reflector.NothingRunsAtReturn | main.go:376-382 | When a loop's wait ends, no handler is left at that moment. |
| Reflector.QuietKept | main.go:375-419 | Every step keeps a reflector quiet: no handler, and every loop has seen the end of the context. |
| ReflectorTrace.LoopsEndAfterCancel | main.go:376-396 | A loop drains or returns only after the context is done. |
| Reflector.NoHandlerFromHereOn | main.go:354-419 | For any set of serve loops: no handler runs from here on, however the run goes on, if and only if the reflector is quiet. |
| Reflector.LoopsThatWaitedAreDrained | main.go:376-382 | Once all serve loops, however many, have waited and returned, no handler is left and none can start. |
| Reflector.SecondLoopStartsLate | main.go:354-358 | With two loops a handler can outlive the loop that waited. |
| Reflector.FailedReadSkipsTheWait | main.go:386-396 | A failed read while shutting down returns without waiting for handlers. |
| ClientSession.RunLedgers | main.go:699-777 | In every state of every interleaving: posted + in a hand + in the map + overwritten = started + failed writes that lost their entry, and round-trip times never outnumber started packets. |
| ClientSession.RunAccounts | main.go:720-764 | In every state, the places a sequence number is in number one if it is started, plus its failed writes that lost their entry. |
| ClientSession.RunKeepsT1s | main.go:733-743 | In every state, each entry and each posted round-trip time carries the T1 of its own sequence number, however many duplicates arrive. |
| ClientSession.RunIsPaced | main.go:701-722 | In every state, after the k-th read timeout since the last packet or datagram more than k - 1 timeouts have passed, and the third visit to the map empties it. |
| ClientOutcome.ExactlyOnePlace | main.go:699-777 | Each started packet is in exactly one of map, sender's hand, receiver's hand or one post, if and only if its write did not fail after the receiver had taken its entry. |
| ClientOutcome.NeverOverwrites | main.go:756-758 | With at most 2^32 packets no entry is overwritten. |
| ClientOutcome.AtJoin | main.go:646-659 | When results are collected, count + failed writes counted twice = round-trip times + errors + left in the map + overwritten; there are at most count round-trip times and loss lies in [0, 100]. |
| ClientOutcome.LeftBehind | main.go:562-590 | After a receiver that left because the map was empty, only packets sent later remain in it. |
| ClientOutcome.NothingLeftAfterAll | main.go:562-590 | A receiver that left an empty map after the last packet was sent leaves none behind. |
| ClientOutcome.EarlyExitLosesAnswers | main.go:562-572 | For every count, a concrete run in which the receiver leaves before the first packet and all packets stay in the map. |
| ClientTrace.RunsArePerformed | main.go:699-777 | The runs are exactly what sequences of steps perform. |
| ClientTrace.ResultsAreExplained | main.go:699-777 | In every state, every result posted, every entry and whatever a goroutine holds goes back to earlier steps: a stamp of that packet, a datagram with that number, a failed write, a visit. |
| ClientTrace.RttGoesBackTo | main.go:728-750 | Each posted round-trip time of number q has an earlier stamp of packet q and an earlier datagram with number q: T1 is the clock at the stamp, T2 and T3 are the datagram's, T4 is the clock when it was read, and the value is (T4 - T1) - (T3 - T2), never below zero. |
| ClientTrace.PostedRTT | main.go:733-743 | If the datagrams are the reflector's answers to the packets they name, a posted round-trip time is within 1 ns of the network delays of one of them if and only if that one's stamps lie in one NTP era, however many answers came and whatever the clock offset. |
| ClientTrace.TimedOutGoesBackTo | main.go:713-718 | A packet reported as timed out was visited more than two timeouts after its own stamp. |
| ClientTrace.VisitsExpireTheLate | main.go:713-718 | A visit takes an entry out if and only if more than two timeouts have passed since its packet was stamped. |
| ClientTrace.WhenItLeft | main.go:719-727 | A receiver has left in one step, over an empty map or a failed read, and records how many packets had been started. |
| ClientTrace.LeavesAnEmptyMap | main.go:566-586 | Each look at the map after a timeout ends the receiver if and only if the map is empty. |
| ClientTrace.LooksFirst | main.go:566-574 | Run takes the lock only after it has seen a map that is not empty; runBurst takes it right after the timeout. |
| ClientTrace.ReadsTimeOut | main.go:708-711 | A read times out once the timeout has passed since it began, which was at the start or after the receiver's last step. |
| ClientOutcome.TimedOutIsLate | main.go:712-717 | A packet is reported as timed out only more than two timeouts after its T1, and then it is in the map no more and has no other result, unless its write failed after the receiver had taken its entry. |
| ClientOutcome.RoomExactly | main.go:697-777 | The ledger read as a condition on room: failed writes that lost their entry are fewer than packets not started, in a hand, in the map or overwritten. |
| ClientOutcome.ResultsFit | main.go:701 | The results channel never holds more results than packets to send. |
| ClientOutcome.CollectedMeansNoLostEntry | main.go:770-777 | A collected session left an entry in the map, or overwrote one, for every failed write that lost its own; one that drained its map and overwrote nothing had no such write. |
| ClientProgress.BlocksExactly | main.go:697-777 | In every reachable state with the sender done: a post blocks in some continuation if and only if the receiver has not left and more failed writes lost their entry than entries were overwritten. |
| ClientProgress.CollectedUnlessBlocked | main.go:770-777 | Otherwise some continuation collects the results. |
| ClientProgress.CollectedExactly | main.go:697-777 | Once every packet is started and the map is drained, some continuation collects the results if and only if no failed write has lost its entry or is about to find it gone. |
| ClientOutcome.PostsNeverBlock | main.go:697-777 | Without failed writes that lost their entry, whoever is about to post can. |
| ClientOutcome.SilentAfterClose | main.go:770-777 | Nothing is sent on the closed channel. |
| ClientOutcome.StuckForever | main.go:697-777 | A blocked post blocks for good and the results are never collected. |
| ClientOutcome.AnsweredFailureHangs | main.go:733-764 | For every count of at least one, a concrete run that hangs: the first packet is answered before its write reports an error, the others fail to be sent. |
| ClientOutcome.AtMostThreeTimeouts | main.go:701-722 | With an ideal clock at most three read timeouts at a later clock reading follow the last packet and the last datagram, at most four counting one at the same reading, and after that the receiver does not read again. |
| ClientTrace.FewTimeouts | main.go:701-722 | In terms of steps: any stretch of a run in which nothing is sent and no datagram arrives has at most three read timeouts later than its beginning and at most four in all. |
| ClientTrace.FourTimeoutsHappen | main.go:701-722 | Both numbers are reached. |
| ClientProgress.NeverStuck | main.go:697-777 | Provided no failed write lost its entry to the receiver, no deadlock: before collection some goroutine has a step that needs nothing from outside but time. |
| ClientProgress.StepIsCloser | main.go:697-777 | Every step of every goroutine that no datagram and no socket error causes, whether or not a write succeeds, reduces a measure made of packets left, read timeouts left and work of the receiver. |
| ClientProgress.StretchIsShort | main.go:697-777 | Any schedule: a stretch of a run without datagrams and socket errors has at most a number of steps, computed from its first state, other than time passing. |
| ClientProgress.MovesReachTheEnd | main.go:697-777 | For a positive timeout such steps lead from every reachable state to collected results, unless a write that has already failed turns out to have lost its entry. |
| RateLimiting.RateLimiter.Allow | main.go:233-259 | A packet is refused exactly when some window that ends with it, among its own source's packets, is full; the new buckets are those of the longer trace. |
| RateLimiting.SourcesAreIndependent | main.go:233-259 | A decision depends on the clock readings of its own source only. |
| RateLimiting.OtherSourcesDoNotMatter | main.go:233-259 | The decisions for a source equal those on the trace restricted to that source. |
| RateLimiting.TokensAreLeastRoom | main.go:247-252 | The tokens before a packet are exactly the room of the tightest window that ends with it. |
| RateLimiting.RefusedExactlyWhenAWindowIsFull | main.go:247-259 | Refusal if and only if some window would hold more than rate * (1 + elapsed) packets. |
| RateLimiting.RoomInNumbers | main.go:247-252 | No window that ends with the packet is full if and only if each holds, with it, at most rate * (1 + elapsed) packets. |
| RateLimiting.WindowBound | main.go:233-259 | For clock readings in order, at most rate * (1 + (t - s)) packets of a source are admitted between any two of its arrivals. |
| RateLimiting.SourceWindowBound | main.go:233-259 | The same for one source inside any trace of many. |
| RateLimiting.GreedyIsOptimal | main.go:233-259 | After every prefix the limiter has admitted at least as many packets as any choice that keeps such a bucket non-negative. |
| RateLimiting.GreedyIsAffordable | main.go:233-259 | The limiter's own choice keeps the bucket non-negative, so the optimum is reached. |
| BurstStatistics.PrintStats | main.go:780-834 | The loops compute average, extremes that occur in the list, deviation and mean jitter of any non-empty list; what is printed is each in whole microseconds, the deviation truncated to nanoseconds first, and the loss only when packets were sent. |
| BurstStatistics.SummaryUnique | main.go:793-828 | Those requirements determine the statistics. |
| BurstStatistics.SummaryInNumbers | main.go:793-828 | The extremes occur in the list and bound it; average and mean jitter are the quotients without their fractions, the jitter over one gap less than there are values. |
| BurstStatistics.SumIsAdditive | main.go:793-799 | The sum of a list in two pieces is the sum of the pieces' sums. |
| BurstStatistics.DeviationsAreAdditive | main.go:808-812 | The squared deviations of a list in two pieces are the pieces' own; those of one value are (x - avg)^2. |
| BurstStatistics.JitterOfPieces | main.go:815-824 | The jitter sum of a list in two pieces is the pieces' own and the distance between their neighbouring ends. |
| BurstStatistics.DeviationSquared | main.go:813 | The deviation is the non-negative root of the squared deviations over the number of values. |
| BurstStatistics.MsDropsNanoseconds | main.go:829-834 | A time in milliseconds is whole microseconds and drops less than one. |
| BurstStatistics.CarriedInNumbers | agent.go:429-477 | What the agent carries of a burst, without the summary in between. |
| BurstStatistics.LossInNumbers | twamp_measurer.go:39-43 | loss * sent = 100 * (sent - received) for a positive count; 100 otherwise. |
| BurstStatistics.AverageIsBetween | main.go:793-806 | min <= avg <= max, truncation included. |
| BurstStatistics.JitterAgainstSpread | main.go:815-828 | max - min <= jitter sum <= (n - 1)(max - min), and the mean jitter is at most the spread. |
| BurstStatistics.VarianceBound | main.go:808-815 | The squared deviations are at most n(max - avg)(avg - min) + r(max + min - 2 avg), r the remainder of the average. |
| BurstStatistics.LossInRange | twamp_measurer.go:39-43 | Loss lies in [0, 100], is 100 exactly without answers and 0 exactly with all of them. |
| BurstStatistics.AgentBurst | agent.go:429-477 | Its loops compute the same statistics; the result carries them in whole nanoseconds, the deviation truncated, and the loss, also when nothing was received. |
| BurstStatistics.TwampStatistics | twamp_measurer.go:45-84 | Its loops compute the statistics of any non-empty list, the deviation untruncated. |
| BurstStatistics.TwampFields | twamp_measurer.go:31-84 | Its loops compute the same statistics; the published fields are exactly these keys, times in whole microseconds and the deviation untruncated. |
| BurstStatistics.DeviationWithinSpread | main.go:808-813 | The deviation, under an exact root, is at most the spread of the burst. |
| BurstStatistics.CopiesAgree | main.go:793-834 | On the same burst the three copies agree on minimum, average, maximum and jitter, and min <= avg <= max survives the conversion to milliseconds. |
| BurstStatistics.DeviationsDiffer | agent.go:449-456 | How far the deviations differ: agent.go drops less than 1 ns and nothing if and only if it is whole nanoseconds; against what main.go prints twamp_measurer.go is higher by less than 1 us, and equal if and only if it is whole microseconds. |
| MtuSearch.Search | mtu.go:95-149 | On any oracle: the result is 0 or a size that got a reply; the ceiling or the next size up was probed and failed unless the run was disturbed; at most floor(log2(ceiling - floor + 1)) + 1 probes, and exactly that many when the ceiling passes; the negative-payload branch is never taken. |
| MtuSearch.DiscoverV4 | mtu.go:95-149 | The same with floor 576, for any ceiling, each probe with 28 bytes of headers: at most floor(log2(ceiling - 575)) + 1 probes, exactly that many when the ceiling passes. |
| MtuSearch.DiscoverV6 | mtu.go:165-221 | The same with floor 1280 and 48 bytes of headers: at most floor(log2(ceiling - 1279)) + 1 probes, exactly that many when the ceiling passes. |
| MtuSearch.MonotonePathGivesMaximum | mtu.go:95-149 | On a path that passes exactly the sizes up to some MTU, an undisturbed search returns the largest one in range, or 0 if there is none. |
| Text.SplitUndoesJoin | influx.go:183-192 | Splitting undoes joining if and only if no part contains the separator. |
| Text.Fixed3RoundTrip | influx.go:85 | A number printed with three decimals reads back as the same thousandths. |
| Text.Fixed3Examples | influx.go:85 | Where the point, the padding of the fraction and the sign go. |
| Text.DecimalDigits | influx.go:92 | The digits of a decimal number by position, the most significant first and without leading zeros. |
| Text.AtMostIsLexicographic | influx.go:72-82 | The order of sort.Strings: a prefix comes first, otherwise the first difference decides. |
| Text.SortedEnumerationUnique | influx.go:68-82 | Sorting makes the order in which a map was ranged over invisible. |
| LineProtocol.EscapeIsEach | influx.go:53-58 | The three replacements in a row put one backslash before each space, comma and equals sign and change nothing else. |
| LineProtocol.LineProtocolResult | influx.go:52-94 | Whatever orders map iteration yields, the loops build the line with tags and fields in key order. |
| LineProtocol.LineIsUnique | influx.go:52-94 | A result has one line: it does not depend on map iteration order. |
| LineProtocol.LineWrittenOut | influx.go:60-93 | The line of any result with one tag and one field, written out: measurement, base tags source, target, topology and site, the tag, the field, the time. |
| LineParser.TokenRoundTrip | influx.go:53-58 | An escaped token before a delimiter reads back if and only if it does not end in a backslash. |
| LineParser.MeasurementIsRead | influx.go:88-89 | The measurement, printed unescaped, reads back if and only if it has no special character and no trailing backslash. |
| LineParser.FieldsRoundTrip | influx.go:77-93 | Fields, to the thousandth, and timestamp read back if and only if no field key ends in a backslash. |
| LineParser.LineRoundTrip | influx.go:52-94 | For every result, a parser that splits at unescaped space, comma and equals recovers measurement, every tag, every field and the timestamp, in order, if and only if no tag and no key ends in a backslash and the measurement reads back. |
| LineParser.CleanResultIsRecovered | influx.go:52-94 | From the line of a clean result the whole result is rebuilt, both maps included. |
| LineParser.LineIdentifiesResult | influx.go:52-94 | Two clean results never share a line. |
| LineParser.TrailingBackslashIsLost | influx.go:53-58 | A concrete source name that does not come back. |
| LineParser.NewlineInLine | influx.go:52-94 | A line contains a newline if and only if one of the result's strings does. |
| Batching.BatchesConcat | store.go:85-114 | Cutting into batches of n loses, repeats and reorders nothing. |
| Batching.BatchesCommute | store.go:85-114 | Cutting into batches does not look at the elements: it commutes with replacing each of them. |
| Batching.OneMore | influx.go:201-204 | One more element completes a batch of n or joins the buffer. |
| InfluxWriter.RunResults | influx.go:176-231 | At every point of every run of the select loop, the bodies handed to write and the current batch are those of the reference grouping. |
| InfluxWriter.GroupsConserveLines | influx.go:176-231 | The lines of the bodies sent, followed by the current batch, are the lines received, in order. |
| InfluxWriter.TakenGrows | influx.go:176-231 | Lines count as received up to the first close or cancellation, those still queued only for a cancellation. |
| InfluxWriter.GroupsAreWellSized | influx.go:176-231 | Every body but the one at shutdown has 1 to 100 lines, the one at shutdown is last and not empty, and nothing is left at exit. |
| InfluxWriter.HundredsGoOut | influx.go:201-204 | While only lines come in, exactly the full hundreds go out and fewer than 100 wait. |
| InfluxWriter.BodyIsLinesBetweenNewlines | influx.go:183-192 | A body is its lines with newlines between them and none at the end. |
| InfluxWriter.TickEmptiesTheBatch | influx.go:205-206 | After a tick no line waits, whatever came before. |
| InfluxWriter.SplittingUndoesBodies | influx.go:183-192 | Splitting the bodies at newlines gives back their lines if and only if none contains a newline. |
| InfluxWriter.WriterConserves | influx.go:176-231 | Conservation end to end: split bodies plus current batch are the lines received if and only if no line sent contains a newline. |
| InfluxWriter.LinesReadAreCounted | influx.go:183-192 | Splitting the bodies gives at least as many lines as were sent, and as many if and only if none contains a newline. |
| Pipeline.Forward | agent.go:692-711 | One scheduler: exactly the results that are not hidden, each once and in order up to the first cancelled one, go to the channel and then to the store; at every moment its part of the store lags its part of the channel by at most one; neither a cancelled result nor later ones reach the store. |
| Pipeline.ForwardsInARow | agent.go:679-713 | The same holds for a scheduler that forwards again and again. |
| Pipeline.StoreLagsByTheSchedulers | agent.go:607-622 | In any interleaving of n schedulers the store lags the channel by exactly the number of schedulers between their two steps, so by at most n. |
| Pipeline.ReadBackExactly | influx.go:176-231 | End to end: once the writer has exited, splitting its bodies at newlines gives one text for each result received, in order, that parses to its every tag, field and time, if and only if all results are clean and free of newlines. |
| Pipeline.ResultsComeBack | influx.go:176-231 | After the writer exits, splitting its bodies and parsing each line gives back every result received, in order, for clean results without newlines. |
| Pipeline.NewlineIsLost | influx.go:183-192 | A concrete result with a newline that is not read back from its body. |
| LocalStore.ScanUnlines | store.go:51-56 | Scanning a file of complete lines yields them, up to the first that is too long. |
| LocalStore.ScanOneLine | store.go:51-56 | Line by line, for any text: one carriage return comes off, empty lines count, a line of 2^20 bytes ends the scan, a last line needs no newline. |
| LocalStore.VisibleStopsAtLongLine | store.go:51-56 | The scan sees every line if and only if all are shorter than 1 MiB. |
| LocalStore.TornTailSwallowsNextLine | store.go:39 | An appended line stands on its own if and only if the file was empty or ended in a newline. |
| LocalStore.TornLineExample | store.go:39 | A concrete torn file in which it does not. |
| LocalStore.LocalStore.Append | store.go:31-43 | The file encodes the old lines and the new one, cut to the last maxLines, as far as the scan sees. |
| LocalStore.LocalStore.EnforceCap | store.go:47-72 | The rewrite keeps exactly the last maxLines lines and leaves a file within the cap alone. |
| LocalStore.LocalStore.Flush | store.go:75-116 | fn sees the stored results in order in batches of 100, the last may be shorter, despite the reused buffer; the file is cleared if and only if every batch was accepted and the context stayed live, otherwise its content is unchanged. |
| LocalStore.Replay | store.go:84-109 | The calls are a prefix of the batches of the decoded lines; a rejected or cancelled replay stops where it must. |
| LocalStore.ReportInNumbers | store.go:84-116 | What that report means: calls of 100, the last of 1 to 100, that give the decoded lines in order, all of them in a completed flush; only a rejected call, the last, was not accepted. |
| LocalStore.StopInNumbers | store.go:84-109 | A replay stops at the first line at which the context is done, after the full hundreds of the lines before it, or when fn refuses a batch. |
| LocalStore.DecodedResults | store.go:92-96 | Replaying encoded results gives them back in order. |
| StoreDriver.Perform | store.go:31-116 | A driver that performs any list of appends and flushes on a store object, with results of any length: before each operation and at the end the file holds the encodings of exactly the results that runs store; each flush completes if and only if the context stays live and fn accepts every batch of the results seen; and the calls fn accepted concatenate to the results that runs deliver. |
| StoreDriver.VisibleIsSeen | store.go:51-56 | What a scan of the file sees are the lines of the results before the first one of a mebibyte or more. |
| StoreDriver.CompletedFlushGives | store.go:75-116 | A completed flush clears the file and gives fn a stored result if and only if neither it nor one stored before it is a mebibyte or more. |
| StoreRuns.RingHoldsTheLatest | store.go:31-116 | In every run the file holds, of the results appended since the last completed flush, the last maxLines before the first long one and everything from that one on. |
| StoreRuns.StoredExactly | store.go:31-116 | A result is stored if and only if no flush has completed since its append and, unless a long one hides it, fewer than maxLines results were appended after it before the next long one. |
| StoreRuns.LostExactly | store.go:75-116 | Of the results stored, a completed flush loses exactly those with a long one at or before them. |
| StoreRuns.AtLeastOnce | store.go:31-116 | Every appended result is still stored, or was among the batches accepted in a completed flush, or was evicted by at least maxLines later appends with no completed flush between, or was cleared unseen behind a long one. |
| StoreDriver.NothingIsLost | store.go:31-116 | The same about a store object: the result's own line at its own place in the file, or its own place among the results fn accepted. |
| StoreRuns.DeliveredWasStored | store.go:75-116 | A flush delivers only stored results, oldest first, and none twice. |
| StoreRuns.RepeatsOnlyAfterFailure | store.go:75-116 | A result is delivered again only after a flush that did not complete. |
| ConfigBroadcast.StepKeepsInv | agent.go:603-645 | Every step keeps: what each scheduler read, followed by its channel, is its seed and the configs sent to it. |
| ConfigBroadcast.SchedulersReadAPrefix | agent.go:600-735 | In every run each scheduler has read a prefix of one sequence: its seed, then the published configs in the poller's order. |
| ConfigBroadcast.SchedulersReadWhatIsFetched | agent.go:600-735 | In terms of steps: after n receives a scheduler has read the first n of: the initial config as its seed, the initial config again, then what the poller fetched, in order. |
| ConfigBroadcast.StoppedDoNothing | agent.go:621-735 | A stopped fan-out neither takes nor sends, and a scheduler that returned does not receive. |
| ConfigBroadcast.SchedulersStayClose | agent.go:600-735 | The numbers of configs read by two schedulers never differ by more than 2, and the poller is at most 2 ahead. |
| ConfigBroadcast.NothingSkippedAtRest | agent.go:600-735 | When all channels are empty and the fan-out is idle, every scheduler has read everything. |
| ConfigBroadcast.DistanceTwoHappens | agent.go:600-735 | The distance 2 is reached. |

## Left out

- Sockets, raw ICMP, DF bit, signals, HTTP, TLS, iperf3: represented as steps of the environment, oracles or parameters.
- Clocks: readings are parameters; the limiter's bounds need readings in order, and the timeout bound an ideal clock.
- time.Duration saturation in `Sub` and overflow of sums of durations: durations are unbounded integers of nanoseconds.
- Floating point: limiter tokens, milliseconds and loss are reals; field values are whole thousandths, so `%.3f` rounding, NaN and infinities do not arise.
- `math.Sqrt`: an exact square root, given as a parameter.
- Client goroutines: `Run` and `runBurst` are steps on values, since they interleave; socket set-up and the pause between packets are not steps.
- A negative count, for which creating the channel panics.
- More than 2^32 packets in one burst: the ledger and the room condition cover them, the account per sequence number does not.
- `p.Padding` as a slice that shares memory with the received data: padding is a value here.
- Bucket pointers shared through the limiter's map: buckets are values that the map is updated with.
- The allowlist and the buffer pool in `serve`: an accepted packet has passed the first, and its bytes are a copy.
- Failing file operations and other processes that write the store's file; the torn last line they can leave is covered by one lemma only.
- JSON: an injective encoding into one line without a trailing carriage return.
- LocalStore.File: an append-mode file in memory; that a write goes to the end of the file is what O_APPEND is taken to mean.
- A negative maxLines.
- A run of StoreDriver.Perform starts on an empty file; what an earlier process left counts as the appends that wrote it.
- The retry loop of `write` and the results of its calls in `runResults`, which only logs them.
- `run` and `lineProtocol`, which have the shape of `runResults` and `lineProtocolResult` with fixed keys.
- `prom.go`, `exporter.go`, `trace.go`, `dns.go`, `bw.go`, target selection, config parsing and defaulting, CLI: wrappers, filters and single loops.
- Tags that repeat a base tag (`source`, `target`, `topology`, `site`): they are recovered in order, but a database would see one name twice.
