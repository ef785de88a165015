# LiteVPN: a verified model

This project models the algorithmic core of LiteVPN in Dafny 4.11 and proves what it promises.
`dafny verify dfyconfig.toml` checks everything.

| file | contents |
|---|---|
| `Pacer.dfy`, `PacerCredit.dfy`, `RateController.dfy`, `EgressPacer.dfy` | the egress pacer: byte bound over whole runs and over windows, tight sleeps, the rate controller, the object itself |
| `Backlog.dfy`, `DatagramPump.dfy` | the cap on untransmitted datagrams: cache against polling, deadline, bound over a pump run |
| `Framing.dfy`, `Tunnel.dfy`, `StreamPumps.dfy` | length-prefixed packets on a byte stream cut anywhere, the tunnel end to end, the readers, writers and pumps |
| `Handover.dfy` | the single-active-client protocol as interleaved atomic steps over any number of connection handlers |
| `Text.dfy`, `Auth.dfy`, `BenchSummary.dfy` | the text protocols: authentication request and benchmark summary |
| `Bench.dfy` | conservation of packets and bytes between the two ends of a benchmark |
| `Routes.dfy` | the macOS route guard over a table with longest-prefix lookup |
| `Wrappers.dfy` | small shared types, saturating 64-bit arithmetic |

How the surroundings appear in the model:

- **Clock.** Instants are real numbers of seconds. A `Clock` advances by any amount between two
  readings, a sleep ends at or after its target, and every sleep is remembered. Whole-run statements quantify over every
  sequence of readings that never runs backwards.
- **Network.** The transmit counter is a list of readings that never decrease and never exceed what
  was queued (only this loop sends datagrams on the connection). A byte stream is the bytes that
  will still arrive, any list of chunk sizes (zero included), and an end: finished or lost.
- **Concurrency.** Each handler's action under the lock is one step, as is each action outside it;
  a run is any interleaving.
- **Devices and commands.** A TUN device takes some packets and then fails or writes short; each
  `route` command goes through or not, as the environment chooses.

Where a property is false of the code, the project says exactly when it holds and shows a failing run:

- A bound on a sliding window of a static pacer holds exactly where the epoch's credit is used up
  (`PacerCredit.SlidingWindowIffNoCredit`, failing after idle time: `PacerCredit.IdleCreditIsUnbounded`). With
  resets allowed for, it holds for an adaptive pacer there and where the controller is bound to restart the
  epoch at the next call, and nowhere else (`PacerCredit.AlwaysWithinIff`). What holds of every window is
  `PacerCredit.WindowBound`.
- The whole-run bound of a static pacer holds exactly up to the range of its 64-bit counter
  (`PacerCredit.BoundIffTotalFits`, `PacerCredit.SaturationBreaksBound`).
- The authentication round trip: `Auth.RequestRoundTrip` is an if-and-only-if over all tokens and modes.
- An install that reports success may leave a stale route in force: `Routes.SuccessIffSettled`,
  `Routes.InstalledRoutesEveryAddress` and `Routes.StaleHostRouteSurvives`.
- The order of route commands: `Routes.CleanupOrder`, `Routes.InstallOrder`, `Routes.CleanInstallOrder`.
- Unframed packet counts agree exactly when reads and writes fall equally short: `Bench.UnframedPacketsAgreeIff`.
- The handover is safe exactly as long as no id is handed out that a handler still has
  (`Handover.FreshIdsIffNeverSteals`), and none of the first 2^64 ids is
  (`Handover.FirstIdsAreFresh`); `Handover.WrappedIdEvictsLiveClient` is a failing run with one more.

Two observations about the code. Ids are taken before the lock, so the slot goes to the last
handler to take the lock, not to the largest id. A route cleanup ignores failed deletes and marks
the guard as cleaned, so dropping the guard does not try again (`Routes.RouteGuard.Cleanup`).

## Model

| member | source | states |
|---|---|---|
| Pacer.WholeRunBound | crates/litevpn-core/src/quic.rs:56-135 | over every run in which no epoch fills the 64-bit counter, all bytes ever recorded stay within the configured rate times the time since creation, plus one burst, plus one burst and one largest packet per possible rate change; a static pacer has none of the last part |
| Pacer.EveryRunInvariant | crates/litevpn-core/src/quic.rs:56-135 | over every run from a new pacer or one in use, the rates stay in their band, the current epoch within its allowance, the bytes forgotten by resets are bounded by their number, and the time between adjustments bounds that number |
| Pacer.StepShape | crates/litevpn-core/src/quic.rs:68-113 | the epoch restarts exactly when the rate changes, forgetting what was recorded so far; the controller acts at least 250 ms after it last did |
| Pacer.EverySleepIsTight | crates/litevpn-core/src/quic.rs:115-135 | in every run a call sleeps exactly when the epoch bound does not hold yet, until the earliest instant at which it does, at most the packet's own size at the current rate after the previous return |
| Pacer.EveryRunKeepsUp | crates/litevpn-core/src/quic.rs:56-135 | throughput: apart from the clock moving on by itself and sleeps ending late, a whole run takes no longer than its bytes take at the configured rate for a static pacer, and at half of it for an adaptive one |
| Pacer.NoSleepIffPaced | crates/litevpn-core/src/quic.rs:115-135 | no sleep if and only if the epoch bound holds when the target is compared with the clock |
| Pacer.EarliestPaced | crates/litevpn-core/src/quic.rs:123-131 | the epoch bound holds at exactly the instants from the target on |
| Pacer.UnlimitedNeverSleeps | crates/litevpn-core/src/quic.rs:115-118 | a pacer with target zero has no rate and never sleeps, over every run |
| Pacer.BurstIsLeast | crates/litevpn-core/src/quic.rs:481-489 | the burst is the least 64-bit number of bytes covering one packet and five milliseconds at the target rate, the largest such number if none does |
| PacerCredit.WindowBound | crates/litevpn-core/src/quic.rs:56-135 | from any point of a run, what is recorded from there on is within the configured rate times the time, the credit at that point, one burst, and one burst and one largest packet per reset; resets are at most one more than the adjust intervals in the window, and none for a static pacer |
| PacerCredit.AlwaysWithinIff | crates/litevpn-core/src/quic.rs:56-135 | from any state between two calls, static or adaptive, every continuation whose calls pass the connection stays within the configured rate times the time, one burst, one burst and packet per reset, and `extra` bytes, if and only if earning `extra` + 1 bytes at the current rate takes at least as long as one byte at the configured rate, or the counter would saturate first, or the controller is due and any verdict changes the rate; packets of one byte and loss counters that never decrease suffice to exceed it |
| PacerCredit.SpentCreditNeverShows | crates/litevpn-core/src/quic.rs:56-135 | the first two conditions bound every continuation, whether or not its calls pass a connection |
| PacerCredit.SlidingWindowIffNoCredit | crates/litevpn-core/src/quic.rs:110-135 | at any time after any run of a static pacer, every continuation stays within rate times time, one burst and `extra` bytes if and only if the credit by then (rate times the age of the epoch, less its bytes) is at most `extra`, or the counter would saturate first; `extra` zero is the bound on a sliding window |
| PacerCredit.IdleCreditIsUnbounded | crates/litevpn-core/src/quic.rs:110-135 | a new pacer, static or adaptive, that is idle long enough releases packets of any sizes at one instant |
| PacerCredit.BoundIffTotalFits | crates/litevpn-core/src/quic.rs:56-57 | a static pacer keeps every run of a given total, in packets of any size down to one byte, within the whole-run bound if and only if the total fits 64 bits |
| PacerCredit.SaturationBreaksBound | crates/litevpn-core/src/quic.rs:56-57 | static or adaptive, a run of one-byte packets, every call with the connection, that saturates an epoch exceeds the whole-run bound |
| RateController.RateFollowsVerdicts | crates/litevpn-core/src/quic.rs:90-102 | in every run the rate is the fold of the lossy and clean comparisons made, independent of packets and clock |
| RateController.VerdictsCompareSamples | crates/litevpn-core/src/quic.rs:72-92 | each comparison is against the counters of the previous sample, the first sample only stores them, and samples are taken an interval after the last |
| RateController.RateStaysInBand | crates/litevpn-core/src/quic.rs:35-36 | in every run the rate is between half the configured rate and the configured rate |
| RateController.FiveLossyReachFloor | crates/litevpn-core/src/quic.rs:90-94 | five lossy comparisons reach the floor within EPSILON from any rate in the band, four from the ceiling do not |
| RateController.ThirtySixCleanReachCeiling | crates/litevpn-core/src/quic.rs:95-102 | thirty-six clean comparisons reach the ceiling within EPSILON from any rate in the band, thirty-five from the exact floor do not |
| RateController.RunReachesLimits | crates/litevpn-core/src/quic.rs:79-102 | the same for the last verdicts of any run |
| EgressPacers.EgressPacer.constructor | crates/litevpn-core/src/quic.rs:34-50 | a new pacer is in the initial state of its configuration at the clock reading it makes |
| EgressPacers.EgressPacer.Adjust | crates/litevpn-core/src/quic.rs:68-108 | the object moves as the controller's specification says, for the readings it makes in order |
| EgressPacers.EgressPacer.ResetEpoch | crates/litevpn-core/src/quic.rs:110-113 | an empty epoch starts at the current reading |
| EgressPacers.EgressPacer.Wait | crates/litevpn-core/src/quic.rs:115-135 | changes no field, returns no earlier than the specified target, and sleeps exactly as it must: not at all if the epoch bound holds at the last reading, and otherwise once, until the earliest instant at which it holds |
| EgressPacers.EgressPacer.Record | crates/litevpn-core/src/quic.rs:56-66 | recording and adjusting move the object as one step of the specification says, without sleeping |
| EgressPacers.EgressPacer.RecordAndWait | crates/litevpn-core/src/quic.rs:56-66 | appends one call with the given packet to the object's history, which stays a valid run leading to its state, and the clock has slept what that call's target says and nothing else |
| EgressPacers.EgressPacer.BytesWithinBudget | crates/litevpn-core/src/quic.rs:56-135 | the object's own history is within the whole-run byte bound |
| EgressPacers.EgressPacer.SleepsAreTight | crates/litevpn-core/src/quic.rs:56-135 | over the object's whole history the clock slept only in its calls, each at most once, only while the epoch bound did not hold, until the earliest instant at which it does, at most the packet's own time after the previous return |
| Backlog.PollLoopOutcome | crates/litevpn-core/src/quic.rs:174-205 | a polling wait is ready exactly when its last reading is within the cap, and it sleeps only after readings above it |
| Backlog.FirstPollDecides | crates/litevpn-core/src/quic.rs:174-205 | the first poll that is not idle decides a polling wait: ready if the reading is within the cap, timed out if the clock is past the deadline or the deadline ends the pause, closed if the connection does; it goes on waiting as long as all are idle |
| Backlog.WaitOutcome | crates/litevpn-core/src/quic.rs:162-206 | for any polls: ready at once without a cap or with a cached counter within it, otherwise as the first poll that is not idle decides; never timed out where there is no deadline |
| Backlog.DeadlineEndsWait | crates/litevpn-core/src/quic.rs:153-205 | with a deadline a wait ends after at most ceil((deadline - now) / 2 ms) + 1 polls whatever is transmitted, and is timed out only if the last reading exceeded the cap |
| Backlog.CacheRefinesPolling | crates/litevpn-core/src/quic.rs:162-211 | from related states, the cached fast path gives the same outcomes and sleeps as reading the counter every time |
| Backlog.CacheIsTransparent | crates/litevpn-core/src/quic.rs:138-211 | the same over every run of a fresh backlog |
| Backlog.SendStaysWithinCap | crates/litevpn-core/src/quic.rs:148-172 | one send leaves at most cap + 1 datagrams outstanding while waiting and at most cap when ready, for the real counter at any later value |
| Backlog.PumpStaysWithinCap | crates/litevpn-core/src/quic.rs:286-313 | the same over whole pump runs, and queued datagrams are the paced packets plus the one being waited for |
| Backlog.SkippedReadsLeaveNoTrace | crates/litevpn-core/src/quic.rs:293-306 | empty and oversized reads change neither the backlog nor what is paced |
| Backlog.ReadInPump | crates/litevpn-core/src/quic.rs:286-313 | what any one read does anywhere in a run: an empty packet or one above the datagram limit changes nothing; any other is sent, queued as one datagram and, once its wait is ready, paced with its size; a failed send or wait stops the pump for that reason |
| DatagramPump.DatagramBacklog.constructor | crates/litevpn-core/src/quic.rs:139-146 | starts with nothing queued and the counter's value as baseline |
| DatagramPump.DatagramBacklog.Queued | crates/litevpn-core/src/quic.rs:148-151 | queues one datagram and waits without a deadline; outcome, state, polls and pauses are as specified |
| DatagramPump.DatagramBacklog.QueuedUntil | crates/litevpn-core/src/quic.rs:153-160 | queues one datagram and waits up to the deadline; outcome, state, polls and pauses are as specified |
| DatagramPump.DatagramBacklog.WaitUntil | crates/litevpn-core/src/quic.rs:162-206 | the loop computes the specified outcome and cached counter with the specified polls and pauses, and touches nothing else |
| DatagramPump.PumpTunToQuic | crates/litevpn-core/src/quic.rs:274-314 | the pump stops for the specified reason with the specified backlog; the pacer has recorded exactly the accepted packets in order, every call with the connection, and nothing else has slept on its clock |
| Framing.Header | crates/litevpn-core/src/quic.rs:402-403 | two bytes, most significant first |
| Framing.ReadEncodedAll | crates/litevpn-core/src/quic.rs:385-436 | whole frames in front of any bytes are read back as their packets, and the rest is read as if alone |
| Framing.RoundTrip | crates/litevpn-core/src/quic.rs:385-436 | reading the encoding of a packet list gives the list and a clean end |
| Framing.EncodingIsInjective | crates/litevpn-core/src/quic.rs:402-408 | different packet lists have different encodings |
| Framing.ReadIsFaithful | crates/litevpn-core/src/quic.rs:412-436 | of any bytes, the packets read are the frames they start with, and the end is clean exactly if nothing is left over on a finished stream |
| Framing.Truncation | crates/litevpn-core/src/quic.rs:412-472 | a stream cut after any k bytes yields exactly the frames that fit, then a clean end on a boundary of a finished stream and otherwise the error for where the cut fell |
| Framing.TruncationEnd | crates/litevpn-core/src/quic.rs:412-472 | a cut stream ends cleanly only if finished on a frame boundary; otherwise the error is the lost connection, the missing packet behind a header, or the end inside a frame |
| Framing.FramesWithinIsMaximal | crates/litevpn-core/src/quic.rs:412-436 | the frames that fit are as many as possible |
| Framing.OversizedStops | crates/litevpn-core/src/quic.rs:425-430 | a packet larger than the buffer stops the reader after the packets before it |
| Tunnel.WireIsCutEncoding | crates/litevpn-core/src/quic.rs:343-360 | the wire is the encoding of the non-empty packets, cut where the connection was lost, and the pacer is given exactly the packets whose frames went out whole |
| Tunnel.OversizedPacketStopsSender | crates/litevpn-core/src/quic.rs:391-401 | a packet above 65535 bytes stops the sender after the packets before it, with nothing of it on the wire |
| Tunnel.DeliverIsFilter | crates/litevpn-core/src/quic.rs:368-383 | on any bytes, the pump writes the non-empty packets a reader gets, as far as the device takes them |
| Tunnel.ZeroFramesAreInvisible | crates/litevpn-core/src/quic.rs:373-375 | frames that differ only in zero-length packets deliver the same, whatever follows |
| Tunnel.TunnelDelivers | crates/litevpn-core/src/quic.rs:334-436 | for every sequence of reads and a cut at any byte, the peer device gets the unmodified prefix that arrived whole, and with equal valid MTUs no length check fires |
| Tunnel.TunnelDeliversAll | crates/litevpn-core/src/quic.rs:334-436 | a finished stream delivers every non-empty packet and ends cleanly |
| Tunnel.SmallerReceiverStops | crates/litevpn-core/src/quic.rs:425-430 | a receiver with a smaller buffer delivers the packets before the first that does not fit and then fails |
| StreamPumps.ReadExactOrEof | crates/litevpn-core/src/quic.rs:457-472 | for any chunking, fills the buffer with the next bytes or reports the end exactly as the remaining bytes and their end dictate |
| StreamPumps.ReadStreamPacket | crates/litevpn-core/src/quic.rs:412-436 | returns the specified result and leaves the packet at the front of the buffer |
| StreamPumps.PumpStreamToTun | crates/litevpn-core/src/quic.rs:362-383 | appends exactly the specified packets to the device and stops for the specified reason |
| StreamPumps.WriteStreamPacket | crates/litevpn-core/src/quic.rs:385-410 | appends one frame, or the part of it that the connection still took, or nothing if a length check fails |
| StreamPumps.PumpTunToStream | crates/litevpn-core/src/quic.rs:334-360 | however it stops, the pump has appended exactly the specified wire bytes and the pacer has recorded exactly the specified sizes, every call with the connection |
| Handover.ActiveSlot.Replace | crates/litevpn-server/src/main.rs:200-206 | the critical section of the swap returns the old entry and installs the new one |
| Handover.ActiveSlot.ClearIfOwn | crates/litevpn-server/src/main.rs:133-142 | the critical section of the cleanup clears the entry only if it carries the handler's id |
| Handover.Server.constructor | crates/litevpn-server/src/main.rs:86-87 | the server starts with an empty slot, no handlers and the first id |
| Handover.Server.Perform | crates/litevpn-server/src/main.rs:116-216 | each action of a handler, on the shared slot and the wrapping id counter, is exactly one step of the run model, so every run theorem speaks of the running server |
| Handover.EveryRunInvariant | crates/litevpn-server/src/main.rs:116-216 | every interleaving in which no id is handed out while a handler still has it keeps ids distinct, each connection owned at most once, and each live client owned |
| Handover.StandsByItsActions | crates/litevpn-server/src/main.rs:116-216 | in every run each handler stands where its own actions have brought it, in one order and each at most once |
| Handover.EnabledIffNext | crates/litevpn-server/src/main.rs:116-216 | an action is possible exactly after the handler's actions that come before it, and once |
| Handover.FirstIdsAreFresh | crates/litevpn-server/src/main.rs:198-199 | in every run the first 2^64 ids are handed out fresh |
| Handover.FreshIdsIffNeverSteals | crates/litevpn-server/src/main.rs:133-206 | the ids of a run were all fresh if and only if from no point of it on, without another id being taken, a cleanup can clear an entry that is not its own |
| Handover.LiveClientHasOneOwner | crates/litevpn-server/src/main.rs:198-216 | a live client is in the slot or held by exactly one handler between its swap and its close, never both |
| Handover.LiveClientsBounded | crates/litevpn-server/src/main.rs:198-216 | live clients are at most one plus the pending closers, and only the slot's client when none is pending |
| Handover.SlotNeverLeaks | crates/litevpn-server/src/main.rs:133-142 | the slot names a handler that has swapped in and not cleaned up, and is empty when all are done |
| Handover.CleanupClearsOnlyOwn | crates/litevpn-server/src/main.rs:133-142 | in every run a cleanup empties the slot exactly when it holds the handler's own entry |
| Handover.LastSwapWins | crates/litevpn-server/src/main.rs:198-206 | the last handler to take the lock holds the slot until its own cleanup |
| Handover.ClosedIff | crates/litevpn-server/src/main.rs:207-216 | in every run a connection is closed if and only if it disconnected, or a handler closed its predecessor in lock order and that was it and had not cleaned up |
| Handover.SlotClosedOnlyByPeer | crates/litevpn-server/src/main.rs:207-216 | the client in the slot is closed if and only if it disconnected itself |
| Handover.LowerIdCanDisplaceHigher | crates/litevpn-server/src/main.rs:198-216 | a run in which id 1 displaces and closes id 2 |
| Handover.WrappedIdEvictsLiveClient | crates/litevpn-server/src/main.rs:133-142 | with one id more than 64 bits hold, a late cleanup clears a live client's entry |
| Text.SplitJoin | crates/litevpn-core/src/auth.rs:149-181 | splitting words joined by single blanks gives the words |
| Text.SplitIffWords | crates/litevpn-core/src/auth.rs:149-181 | splitting a text gives exactly the words it consists of, whatever blanks are between and around them |
| Text.SplitIffLines | crates/litevpn-core/src/auth.rs:136-144 | splitting a text gives exactly the lines it consists of, each ended by a line feed with or without a carriage return except that the last need not be |
| Text.DecimalRoundTrip | crates/litevpn-core/src/auth.rs:164-180 | a printed number parses back exactly up to the 64-bit limit and not beyond |
| Text.ParseU64IffDenotes | crates/litevpn-core/src/auth.rs:164-180 | a text is read as a number if and only if it denotes that number by place value, with or without a plus sign, for every 64-bit number |
| Auth.BuildRequest | crates/litevpn-core/src/auth.rs:60-81 | the buffer holds the specified request |
| Auth.RequestRoundTrip | crates/litevpn-core/src/auth.rs:125-196 | over all tokens and modes, the server recovers token and mode if and only if the token has no line feed, is non-empty for VPN mode, does not end in a carriage return for a benchmark, and the mode is in range |
| Auth.TargetIsOptional | crates/litevpn-core/src/auth.rs:174-180 | a benchmark line without a target is understood as unlimited |
| Auth.RequestsAreInjective | crates/litevpn-core/src/auth.rs:60-81 | good requests differ whenever tokens or modes do |
| Auth.ServerAcceptsExactly | crates/litevpn-core/src/auth.rs:98-123 | a good request is accepted with its mode exactly for the right token and at most 1024 bytes |
| Auth.AcceptedIffAsked | crates/litevpn-core/src/auth.rs:98-196 | whatever a peer sends is accepted with a mode if and only if it is at most 1024 bytes, framed by the magic and a line feed, and is one line with the expected token for VPN mode, or that line and one of four or five words that ask for that benchmark |
| Auth.ClientBenchIsAccepted | crates/litevpn-client/src/main.rs:395-428 | every benchmark the client's validators let through under a valid MTU is in range, fits the datagram limit and is understood by the server |
| Auth.ClientChecksExactly | crates/litevpn-client/src/main.rs:395-428 | the client lets through exactly the payloads from 64 bytes to what MTU and datagram limit allow, taking the largest where none is requested, and the targets up to 10000 Mbps, zero as unlimited |
| BenchSummary.PrefixIsWholeKey | crates/litevpn-client/src/main.rs:1008-1014 | a field matches only its whole key, so other keys with the same ending are not confused |
| BenchSummary.EveryFieldReadsBack | crates/litevpn-server/src/main.rs:605-614 | every field printed, not only those the client looks for, is found again under its own key |
| BenchSummary.StatsByPosition | crates/litevpn-core/src/quic.rs:255-272 | which connection counter each of the last twelve fields prints |
| BenchSummary.SummaryFits | crates/litevpn-server/src/main.rs:608-614 | the printed summary never exceeds the reader's 1024 bytes |
| BenchSummary.SummaryIsRead | crates/litevpn-client/src/main.rs:851-872 | the reader gets the printed line without magic and line feed |
| BenchSummary.ReadIffMagic | crates/litevpn-client/src/main.rs:851-872 | a text is read as a summary if and only if it starts with the magic and fits 1024 bytes |
| BenchSummary.SummaryRoundTrip | crates/litevpn-client/src/main.rs:990-1014 | the client recovers every counter it looks for; a measured time beyond 64 bits falls back to the total time, and fails if that is too large as well |
| BenchSummary.OlderSummaryIsUnderstood | crates/litevpn-client/src/main.rs:990-1014 | without a measured time the total time counts, and missing loss counters are zero |
| Bench.SendFramed | crates/litevpn-client/src/main.rs:718-747 | the wire holds the counted frames and at most part of one more; bytes are packets times payload; the loop ends on its deadline if and only if the connection takes all frames, and otherwise when it is full |
| Bench.ReceiveFramedBench | crates/litevpn-server/src/main.rs:455-472 | the receiving loop computes the specified tally |
| Bench.ReceiverCountsReads | crates/litevpn-server/src/main.rs:455-472 | on any bytes the receiving loop counts the non-empty packets a reader reads, and reports the reader's own end, if it has turns enough, and otherwise those it has turns for |
| Bench.FramedConservation | crates/litevpn-server/src/main.rs:455-472 | the receiver counts no more packets and bytes than the sender and exactly as many at the end of the stream |
| Bench.FramedLossConservation | crates/litevpn-server/src/main.rs:455-472 | a connection lost at any byte never raises the counts and never looks like the end of the stream |
| Bench.SendUnframed | crates/litevpn-client/src/main.rs:735-744 | bytes counted are the bytes put on the stream and the sum of what the pacer recorded; each write took a payload, what was accepted or all that was left, and the loop stops early only when nothing can be written |
| Bench.ReceiveUnframedBench | crates/litevpn-server/src/main.rs:474-484 | the receiving loop computes the specified tally |
| Bench.UnframedConservation | crates/litevpn-server/src/main.rs:474-484 | received bytes never exceed the sent bytes and are equal unless the loop timed out, which is when it used all its turns; the end it reports is the stream's |
| Bench.UnframedReadsFill | crates/litevpn-server/src/main.rs:474-484 | bytes never exceed packets times the buffer, with equality if and only if every read was whole |
| Bench.UnframedPacketsAgreeIff | crates/litevpn-server/src/main.rs:474-484 | for any writes, partial ones included, and any reads up to the end of the stream: both ends count the same packets if and only if reads and writes fall short of whole payloads by as many bytes altogether; with whole reads exactly if the writes were whole, with whole writes exactly if the reads were |
| Bench.UnframedPacketsMayDiffer | crates/litevpn-server/src/main.rs:474-484 | 64 bytes, from one write or two, count as one packet or as two, by chunking |
| Bench.SendDatagramBench | crates/litevpn-client/src/main.rs:604-622 | the sending loop computes the specified tally and backlog, and the pacer has recorded one payload per counted packet, every call with the connection |
| Bench.TurnInBench | crates/litevpn-client/src/main.rs:604-622 | what any one turn does anywhere in a run: the timer, a closed connection and a failed send each end it for that reason; a sent datagram is queued, and counted with its payload exactly if its wait is ready |
| Bench.DatagramAccounting | crates/litevpn-client/src/main.rs:604-622 | queued datagrams are the counted packets, plus one exactly when the loop stopped inside a backlog wait; bytes are packets times payload |
| Bench.ReceiveDatagramBench | crates/litevpn-server/src/main.rs:335-343 | the receiving loop computes the specified tally |
| Bench.EveryArrivalCounts | crates/litevpn-server/src/main.rs:335-343 | the receiver counts every datagram and its length up to the deadline, or up to the error it then reports |
| Bench.ReceiverCountsAtMostOneMore | crates/litevpn-server/src/main.rs:335-343 | over a network that may lose and reorder but duplicates nothing, the receiving loop counts at most one datagram more than the sender, and none more unless the sender stopped inside a backlog wait |
| Bench.BenchStaysWithinCap | crates/litevpn-server/src/main.rs:396-415 | over a whole benchmark at most cap datagrams are outstanding between turns and cap + 1 at any time |
| Routes.LookupIsLongestPrefix | crates/litevpn-client/src/macos_routes.rs:40-51 | the model's lookup follows a covering entry and no covering entry is longer |
| Routes.RoutingTable.RunRoute | crates/litevpn-client/src/macos_routes.rs:140-158 | an add that goes through keeps an existing route and counts as done |
| Routes.RoutingTable.DeleteRoute | crates/litevpn-client/src/macos_routes.rs:160-180 | a delete that goes through removes the route, present or not |
| Routes.CleanupRoutes | crates/litevpn-client/src/macos_routes.rs:88-94 | all three deletes run in order whatever fails, and the result says whether all went through |
| Routes.CleanupStale | crates/litevpn-client/src/macos_routes.rs:14-30 | fails without an IPv4 server or if the table cannot be listed, changing nothing; otherwise succeeds exactly if none of the three routes was there or all deletes went through |
| Routes.RouteGuard.Install | crates/litevpn-client/src/macos_routes.rs:32-65 | the table passes through exactly the specified steps, with the gateway of the default route read first, and nothing changes without an IPv4 server and a default route |
| Routes.RouteGuard.Cleanup | crates/litevpn-client/src/macos_routes.rs:67-79 | cleans up once and marks the guard, even if deletes fail; a second cleanup changes nothing |
| Routes.RouteGuard.Drop | crates/litevpn-client/src/macos_routes.rs:82-86 | dropping cleans up only a guard that was not cleaned up |
| Routes.InstallIsUndone | crates/litevpn-client/src/macos_routes.rs:37-79 | whatever the first cleanup achieved: if the deletes that run last go through, install and cleanup, or an install failing at any add, leave exactly the foreign routes, which is the start table if and only if it held none of the three; after a successful install it takes all three deletes |
| Routes.LookupsAreRestored | crates/litevpn-client/src/macos_routes.rs:37-79 | then, from a table without the three routes, every IPv4 address is routed as before |
| Routes.SuccessIffSettled | crates/litevpn-client/src/macos_routes.rs:37-65 | an install that reports success has the three routes pointing where they should if and only if each was absent, was deleted by the first cleanup, or pointed there already |
| Routes.InstalledRoutesEveryAddress | crates/litevpn-client/src/macos_routes.rs:37-65 | after an install that reports success, on any table: an address is routed as promised (the server to the old gateway, addresses on the default route or on none to the VPN, all others by their own route) if and only if the one route that decides it was absent, deleted or right already |
| Routes.StaleHostRouteSurvives | crates/litevpn-client/src/macos_routes.rs:38-46 | a stale host route that cannot be deleted counts as added, and the server is routed to the stale gateway although the install succeeds |
| Routes.CleanupOrder | crates/litevpn-client/src/macos_routes.rs:88-94 | on any table, a cleanup has the server reachable after every command if and only if its first delete repairs what there is to repair (128.0.0.0/1, or an undeleted 0.0.0.0/1, without the host route cannot be) and it does not drop the host route over a split route it failed to delete |
| Routes.ForeignRoutesUntouched | crates/litevpn-client/src/macos_routes.rs:37-94 | at every step of an install, its rollback and the guard's cleanup, all routes but the three are what they were |
| Routes.InstallOrder | crates/litevpn-client/src/macos_routes.rs:37-65 | on any table and for every outcome of the commands, a split default route is present only with the host route after every command of an install and its rollback, if and only if that holds of the first cleanup and, when an add fails, the rollback keeps the host route over what the adds left |
| Routes.CleanInstallOrder | crates/litevpn-client/src/macos_routes.rs:37-65 | from a table without the three routes this fails exactly when the last add fails and the rollback then deletes the host route but not 0.0.0.0/1 |
| Routes.GuardCleanupOrder | crates/litevpn-client/src/macos_routes.rs:67-94 | after a successful install, the guard's cleanup is safe at every step if and only if it deletes both halves or leaves the host route |

## Left out

- Pacer.WholeRunBound: assumes that no epoch's byte counter saturates. For a static pacer that is shown to be exact; for an adaptive one it is shown to be needed, not that every saturated run breaks the bound. Floating-point and `Duration` rounding are not modelled: rates and instants are real numbers.
- PacerCredit.AlwaysWithinIff: speaks of continuations in which no record saturates the byte counter.
- Backlog.CacheRefinesPolling: assumes at most 2^64 - 1 queued datagrams, the range of the saturating counter, as do Backlog.PumpStaysWithinCap, Backlog.SendStaysWithinCap, Bench.DatagramAccounting, Bench.ReceiverCountsAtMostOneMore and Bench.BenchStaysWithinCap.
- Backlog.DeadlineEndsWait: assumes the environment answers that many polls; the wait without a deadline may go on for ever, and its progress depends on the network.
- Handover.EveryRunInvariant: memory ordering of the atomic id counter is not modelled beyond each value being taken once.
- Auth.RequestRoundTrip: requests are strings of Unicode scalar values; UTF-8 decoding and its error are not modelled, only the encoded length is. A last line without a line feed keeps its carriage return, as `str::lines` does in the edition the workspace uses.
- BenchSummary.SummaryRoundTrip: the Mbps value derived from the counters is floating point and not modelled.
- Routes.RouteGuard.Install: whether a `route` command goes through is the environment's choice; running the program and matching its output are not modelled beyond "exists" and "not in table", and `route get default` is the gateway of the default entry.
- The pump from QUIC datagrams to TUN: a loop that hands each datagram to the device unchanged.
- Quinn, rustls, tokio and tun-rs internals, certificates, sockets and the key generator.
- Configuration loading and its one-branch checks, used only as assumptions on MTU and targets.
- Command line, logging, signals, connect retries, repeated benchmark runs and printed aggregates.
- Waiting for the acknowledgement of a finished stream, whose time-out is ignored by the source.
