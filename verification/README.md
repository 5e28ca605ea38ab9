# Verified model of MyCloudSpace's metrics pipeline, WireGuard parsers, port leases and sessions

This project models the stateful core of the MyCloudSpace common library in Dafny and
proves what it promises over all inputs, all runs and all reachable states.
`dafny verify dfyconfig.toml` checks it.

**Metrics pipeline** (`monitors/`, `events/events.go`, `vpn/wireguard_client.go`). Counters
are updated concurrently; a timer tick collects them into a payload, every N ticks the queue
of payloads goes to an asynchronous sender, whatever fails comes back to the front of the
queue, and `Stop` drains the rest. `Counters` and `MonitorServices` hold the objects with
their fields, loops and in-place slice deletion. `Pipeline` is the transition system: counter
updates, collection of single counters, ticks, replies of any number of overlapping sends and
the phases of `Stop` interleave freely, subject to the service lock. Payloads are named by
their position in the history of everything ever queued, so "exactly one place, once" is a
statement about multisets of positions. `PipelineTheorems`, `PipelineStop` and `PipelineOrder`
state what holds in every run; `PipelineStop.TickRuns`, `TickedValues` and `ReturnedValues`
connect the transition system to the objects. `TrafficPipeline` follows the readings of a
WireGuard device through the whole pipeline.

**WireGuard configuration** (`vpn/`). `ConfigSyntax` gives the two regular expressions and the
sections they cut a text into, `ConfigParser` the meaning of a list of sections and the
scanning loop that computes it, `ConfigPrinter` the printer, `ConfigRoundTrip` the two
together, `ConfigBrackets` what a bracketed address does to them. `ConfigMeaning` says in terms
of the lines of a text alone which texts are accepted, which error is reported, and where every
value comes from. Line scanning, splitting, joining and decimal numbers are concrete (`GoText`).

**WireGuard userspace protocol** (`tailscale/wireguard_device.go`). `DeviceSpec` reads a reply
as key/value pairs grouped by `public_key`; `DeviceParsing` is the streaming parser with its
sticky error and current peer, proved to produce the same device or the same error.
`DeviceText` says what each line does to the device, by the names the protocol gives its keys.

**Port leases** (`network/port_mapper.go`) and **sessions** (`mycsnode/api_client.go`) are
objects plus timed transition systems over nanosecond clocks.

All 64-bit arithmetic the source does is explicit (`GoInts.Wrap64`); only the clocks of the
timed systems are unbounded. A Go panic appears as
`ok == false` or `None`. Assumptions about the outside enter as parameters or as enabling
conditions: outcomes of JSON, cryptography, HTTP and router calls, the sender's contract
(reported failures are members of the batch, none reported twice), and a timer that calls back
after the returned number of milliseconds plus a lag.

Where code and expectation part ways, the code is modelled and the exact condition is proved:

- The first test in `monitors/monitor_test.go` expects the accepted snapshots of a
  non-cumulative counter to add up to its value. Collecting does not reset such a counter:
  `Counters.CollectConserves` (holds if and only if the counter is cumulative or zero) and the
  run `PipelineOrder.GaugeDoesNotAddUp`.
- `DeleteCounter` cuts off the last counter when the requested one is absent, and panics on an
  empty list: `Collection.DeletesOnlyTarget`, `MonitorServices.Monitor.DeleteCounter`.
- With `collectCount` 0 the countdown starts at -1 and no tick ever posts:
  `PipelineTheorems.PostsOnSchedule`. A negative count panics when the service is made.
- The queue can leave collection order in two ways: two overlapping sends fail
  (`PipelineOrder.OverlapBreaksOrder`), or the report of a single send lists failures in
  reverse (`ReportBreaksOrder`). `QueueOrderIsExact` gives the condition on the replies.
- What a client adds to a counter after its turn in the last pass of `Stop` is never sent.
  `PipelineStop.StopAccountsForAll` states the balance for every run and when it is even;
  `LastPassCollects` says which updates are in time.
- An event that cannot be encoded is skipped, which shifts the failure report and leaves the
  event unreported: `Events.ReportLinesUp`, `SkippedEventShiftsReport`, `UnreportedMeansSent`.
- A line that holds a bracket pair is a section header, so a bracketed IPv6 endpoint is lost, and
  with it the keepalive and the networks of the peer: `ConfigBrackets.BracketedEndpointIsLost`.
  A carriage return at the end of a value is lost too: `ConfigRoundTrip.SectionsSurvive`.
- The configuration parser keeps the keepalive number as it is; the device parser multiplies it
  by a second, in 64 bits. Items of AllowedIPs are not trimmed.
- Handshake seconds carry over from one peer to the next: `DeviceSpec.HandshakeInherits`,
  `BorrowedHandshake`. A malformed line is reported even when an earlier value was in error.
- The requested lease is cut to 32 bits of seconds: `PortMapping.LeaseOutlastsInterval`,
  `LongIntervalAsksForZeroSeconds`.
- Renewing "50 ms before the key expires" leaves 49 ms, because the clock is read in whole
  milliseconds: `AuthSession.LagBoundIsExact`.

## Model

| member | source | states |
|---|---|---|
| `Counters.CollectKeepsGet` | monitors/counter.go:73-102 | collecting never changes what `Get` returns, in 64-bit arithmetic |
| `Counters.GetAfterSet` | monitors/counter.go:97-120 | after `Set(v)`, `Get` returns `v`, whatever was collected before |
| `Counters.GetAfterAdd` | monitors/counter.go:97-134 | `Add` moves `Get` by its argument modulo 2^64; `Inc` is `Add` of the increment |
| `Counters.IncMovesByIncrement` | monitors/counter.go:104-127 | `SetInc(n)` moves nothing, and the next `Inc` moves `Get` by `n` |
| `Counters.CollectConserves` | monitors/counter.go:77-90 | what remains plus what is reported equals what was there, if and only if the counter is cumulative or zero |
| `Counters.Counter.constructor` | monitors/counter.go:33-48 | a new counter holds zero and increments by one |
| `Counters.Counter.Collect` | monitors/counter.go:73-91 | a snapshot unless zero is ignored; only a cumulative counter moves its value over |
| `Counters.Counter.GetValue` | monitors/counter.go:97-102 | the uncollected plus the accumulated value |
| `Counters.Counter.SetIncrement` | monitors/counter.go:104-109 | changes the increment only |
| `Counters.Counter.SetValue` | monitors/counter.go:111-120 | a cumulative counter takes the difference to what was collected |
| `Counters.Counter.Increment` | monitors/counter.go:122-127 | adds the increment, wrapping |
| `Counters.Counter.AddValue` | monitors/counter.go:129-134 | adds the argument, wrapping |
| `NetworkMetrics.SumTraffic` | vpn/wireguard_ctrl.go:163-169 | the loop returns the exact totals over all peers, modulo 2^64 |
| `NetworkMetrics.TotalsAdd` | vpn/wireguard_ctrl.go:163-169 | the totals of one peer are its received and sent bytes, and totals of lists add up |
| `NetworkMetrics.TrafficRecorder.constructor` | vpn/wireguard_client_unix.go:67-68 | two distinct cumulative counters that ignore zero |
| `NetworkMetrics.TrafficRecorder.Record` | vpn/wireguard_client.go:9-35 | a failed reading sets the error and no counter; otherwise positive totals are set, others ignored, and the error stays |
| `NetworkMetrics.TrafficRecorder.BytesTransmitted` | vpn/wireguard_client.go:37-39 | returns both counters and the recorded error |
| `NetworkMetrics.TrafficIsReported` | vpn/wireguard_client.go:17-31 | for every interleaving of readings and collections: `Get` is the last positive reading, what was reported is exactly the non-zero changes between collected readings, and nothing wraps |
| `NetworkMetrics.SnapshotsPositive` | vpn/wireguard_client.go:17-31 | every snapshot is positive if and only if the collected readings never fall |
| `NetworkMetrics.SteadyDevice` | vpn/wireguard_client.go:17-31 | a device whose totals never fall yields positive snapshots only, and the reading in force is one it made |
| `Collection.ReplySplits` | monitors/monitor.go:194-214 | under the sender's contract every member of the batch is delivered or failed, once |
| `Collection.ContractIsExact` | monitors/monitor.go:194-214 | delivered, reposted and dropped together are the batch if and only if no event is reported twice |
| `Collection.DeletedAt` | monitors/monitor.go:252-259 | deletion takes out the last occurrence and leaves the rest in order |
| `Collection.DeletedKeepsOthers` | monitors/monitor.go:252-259 | one entry goes: the target, or the last entry when the target is absent |
| `Collection.DeletesOnlyTarget` | monitors/monitor.go:252-259 | only the target goes if and only if it is registered |
| `Collection.CollectOne` | monitors/monitor.go:131-137 | one counter yields its own snapshot with its value, or none |
| `Collection.CollectConcat` | monitors/monitor.go:131-137 | two lists of counters are collected one after the other, snapshots in that order |
| `Collection.PayloadFollowsMonitors` | monitors/monitor.go:124-139 | a payload has one entry per monitor with counters, in order, under its name and with snapshots of its own counters only |
| `MonitorServices.Monitor.constructor` | monitors/monitor.go:88-93 | a new monitor has no counters |
| `MonitorServices.Monitor.AddCounter` | monitors/monitor.go:240-245 | appends, growing the backing array when it is full |
| `MonitorServices.Monitor.FindCounter` | monitors/monitor.go:252-258 | the backward scan finds the last occurrence, or none |
| `MonitorServices.ShiftDown` | monitors/monitor.go:255 | the overlapping in-place copy removes exactly one slot |
| `MonitorServices.Monitor.DeleteCounter` | monitors/monitor.go:247-260 | scan, copy and cut leave the list without the last occurrence, in place; panics exactly on an empty list |
| `MonitorServices.MonitorService.constructor` | monitors/monitor.go:64-82 | the countdown starts one below the count; no monitors, queue or sends |
| `MonitorServices.MonitorService.NewMonitor` | monitors/monitor.go:84-97 | an empty monitor joins the end of the list |
| `MonitorServices.MonitorService.CollectMonitor` | monitors/monitor.go:131-137 | the inner loop collects the counters in order, one registered twice also twice, and changes no other counter |
| `MonitorServices.MonitorService.BuildPayload` | monitors/monitor.go:122-139 | the payload and the new counter states of a pass over all monitors; the flag says whether there is any snapshot |
| `MonitorServices.MonitorService.CollectEvents` | monitors/monitor.go:120-143 | the payload is queued unless it holds no snapshot |
| `MonitorServices.MonitorService.PostEvents` | monitors/monitor.go:145-154 | the whole queue becomes one more send and the queue is empty |
| `MonitorServices.MonitorService.Collect` | monitors/monitor.go:104-118 | collects, then posts and resets the countdown when it is zero, and counts down otherwise |
| `MonitorServices.MonitorService.FinishSend` | monitors/monitor.go:183-216 | everything, or the readable reported events in report order, goes to the front of the queue; accepted batches change nothing |
| `Pipeline.EmptyPayloadSum` | monitors/monitor.go:140-142 | a payload that is not queued carries no value for any counter |
| `Pipeline.RepliedInPlace` | monitors/monitor.go:183-216 | every possible reply keeps each payload in exactly one place |
| `Pipeline.InPlaceKept` | monitors/monitor.go:104-218 | so does every step of the system |
| `Pipeline.TakenGrows` | monitors/monitor.go:120-143 | what was taken from a counter grows exactly when a step collects it, by what it emits; no other step, and no payload thrown away as empty, changes it |
| `Pipeline.BalancedKept` | monitors/monitor.go:104-218 | so does every step of the system |
| `PipelineTheorems.WellFormedKept` | monitors/monitor.go:84-260 | every step keeps the registered counters known and a pass working on an opened monitor |
| `PipelineTheorems.PassAdvances` | monitors/monitor.go:120-143 | a collection pass never gets stuck |
| `PipelineTheorems.InEveryRun` | monitors/monitor.go:84-260 | all invariants hold in every reachable state |
| `PipelineTheorems.PayloadsConserved` | monitors/monitor.go:104-218 | in every run each payload ever queued is queued, in flight, accepted or lost, in one place only and once |
| `PipelineTheorems.PlacesCarryLog` | monitors/monitor.go:104-218 | the four places carry, for each counter, exactly what was ever queued |
| `PipelineTheorems.ValueConserved` | monitors/counter.go:73-134 | in every run, for every cumulative counter, the accumulated value is the sum of its snapshots over all places and the payload being built, and `Get` is that plus the uncollected value, modulo 2^64 |
| `PipelineTheorems.PostsOnSchedule` | monitors/monitor.go:64-118 | after k ticks of a service made with count N exactly floor(k/N) posts, none for N = 0; countdown in 0..N-1; without failures fewer than N queued and at most N per batch |
| `PipelineStop.PassRuns` | monitors/monitor.go:120-143 | an undisturbed pass is a legal run that works off its list |
| `PipelineStop.DrainAgenda` | monitors/monitor.go:120-143 | working off the list counter by counter equals the nested collection loops |
| `PipelineStop.TickRuns` | monitors/monitor.go:104-118 | an undisturbed tick is a legal run: one whole pass, then the end of the tick |
| `PipelineStop.TickedValues` | monitors/monitor.go:104-118 | by value, the end of a tick does to queue, sends and countdown what the service object does |
| `PipelineStop.ReturnedValues` | monitors/monitor.go:195-213 | what a reply puts back is the same by position as by value |
| `PipelineStop.StopAccountsForAll` | monitors/monitor.go:220-238 | in every run, whatever clients do meanwhile: once `Stop` has returned nothing is in flight, `Get` of each cumulative counter is its accepted, lost and queued snapshots plus its uncollected value, and the snapshots alone add up to `Get` if and only if nothing is uncollected |
| `PipelineStop.FinalSendSettles` | monitors/monitor.go:233-237 | in every run, when the last send is accepted queue and sends are empty and `Stop` can return |
| `PipelineStop.LastPassCollects` | monitors/monitor.go:229-236 | a counter registered when the last pass begins, and updated at any time before its last turn in it, has nothing uncollected when `Stop` returns |
| `PipelineStop.StopDelivers` | monitors/monitor.go:220-238 | if the last send is accepted, nothing was ever lost and the updates were in time, then after `Stop` queue and sends are empty and the accepted snapshots add up to `Get` |
| `PipelineStop.QuietIsInTime` | monitors/monitor.go:229-236 | clients that go on while `Stop` waits for earlier sends, and only leave its last pass alone, are in time for every registered counter |
| `PipelineOrder.QueueStaysInOrder` | monitors/monitor.go:189-214 | with one send at a time and readable failures in batch order, the queue is in collection order in every run |
| `PipelineOrder.RepostedInOrder` | monitors/monitor.go:195-210 | what a report puts back is in order if and only if its readable failures are listed in batch order |
| `PipelineOrder.ReplyKeepsOrder` | monitors/monitor.go:189-214 | a reply, total or partial, leaves the queue in order if and only if its readable failures are in batch order and what comes back is older than the queue |
| `PipelineOrder.QueueOrderIsExact` | monitors/monitor.go:145-214 | in a run with any number of overlapping sends the queue is in order throughout if and only if every reply satisfies that condition |
| `PipelineOrder.OverlapBreaksOrder` | monitors/monitor.go:189-192 | a legal run with two overlapping failing sends whose queue is out of order |
| `PipelineOrder.ReportBreaksOrder` | monitors/monitor.go:195-213 | a legal run with one send in flight and an empty queue that a reversed report leaves out of order |
| `PipelineOrder.GaugeDoesNotAddUp` | monitors/monitor_test.go:33-64 | a legal run in which a non-cumulative counter holds 1 and its accepted snapshots add up to 2 |
| `TrafficPipeline.TrafficInEveryRun` | vpn/wireguard_client.go:17-31 | in every run of the pipeline `Get` of a traffic counter is the last reading of the device, and what was taken from it is exactly the reading last collected |
| `TrafficPipeline.TrafficArrives` | vpn/wireguard_client.go:17-31 | after `Stop` with the last send accepted, nothing lost and the readings in time, the accepted snapshots of a traffic counter add up to the last reading, as exact numbers |
| `Events.CreatePublishEventList` | events/events.go:30-46 | every event is stamped, the inputs are those of the events that encode, in order |
| `Events.CreateCloudEventErrorList` | events/events.go:65-77 | one error per failed result with the event at its position; panics exactly when a failed result has no event |
| `Events.FilterCloudEventsWithErrors` | events/events.go:79-94 | the same events without messages; panics exactly when there are more results than events |
| `Events.FailuresAscend` | events/events.go:68-75 | the reported positions are ascending and complete |
| `Events.PublishedAreKept` | events/events.go:37-45 | the j-th input is an event, marked compressed, whose payload is the encoded form of the j-th event that encodes |
| `Events.KeptIsComplete` | events/events.go:37-45 | an event is published if and only if it encodes |
| `Events.KeptInPlace` | events/events.go:37-45 | the k-th published event is the k-th event if and only if none up to it was skipped |
| `Events.ReportLinesUp` | events/events.go:65-77 | the report names exactly the failed events if and only if none was skipped at or before a failed result |
| `Events.SkippedEventShiftsReport` | events/events.go:37-77 | two events for which the report names the wrong one |
| `Events.ReportMeetsContract` | events/events.go:65-77 | reported positions are members of the batch, ascending and none twice: the sender's contract, and the order that keeps the queue in order |
| `Events.UnreportedMeansSent` | events/events.go:37-77 | unreported events are exactly those sent with success if and only if every event encodes |
| `GoText.LinesHaveNoBreaks` | vpn/wireguard_config.go:57-59 | scanned lines hold no line break |
| `GoText.OneLine` | vpn/wireguard_config.go:57-59 | a non-empty text without line break is one line, terminated or not |
| `GoText.FinalBreak` | vpn/wireguard_config.go:57-59 | a line break at the end of a text changes nothing |
| `GoText.LinesOfText` | tailscale/wireguard_device.go:121-123 | a text written line by line is scanned line by line |
| `GoText.JoinConcat` | vpn/wireguard_config_data.go:74 | joining puts exactly one separator between two lists of parts |
| `GoText.SplitUndoesJoin` | vpn/wireguard_config.go:112 | splitting gives back the joined parts if and only if no part holds the separator |
| `GoText.ParseOfPrint` | vpn/wireguard_config.go:134 | a printed number reads back as itself if and only if it fits in 64 bits |
| `GoText.PlaceValue` | vpn/wireguard_config.go:134 | digits count by their decimal place |
| `GoText.NoLeadingZero` | vpn/wireguard_config_data.go:59 | printed numbers have no leading zero |
| `GoText.NumberSyntax` | vpn/wireguard_config.go:134 | a plus sign may precede the digits; any character that is neither a digit nor a leading sign, and a lone sign, is an error |
| `ConfigSyntax.HeaderIsLeftmostLongest` | vpn/wireguard_config.go:33-66 | a line is a header if and only if some `[` precedes some `]`; the name is the leftmost, longest match |
| `ConfigSyntax.AttributeReads` | vpn/wireguard_config.go:34-82 | any way to read a line as key, blanks, equals sign, blanks, value is the one the pattern captures |
| `ConfigSyntax.AttributeExplains` | vpn/wireguard_config.go:34-82 | whatever the pattern captures comes from such a reading |
| `ConfigSyntax.SampleLine` | vpn/wireguard_config.go:34 | letters, digits, `-` and `_` make a key; blanks and tabs around the equals sign do not matter |
| `ConfigSyntax.SampleMismatches` | vpn/wireguard_config.go:34 | a dotted key and a comment do not match |
| `ConfigSyntax.BracketsAreHeader` | vpn/wireguard_config.go:33-66 | the outermost bracket pair of a line is a header, whatever else the line holds |
| `ConfigSyntax.TextSectionsReadable` | vpn/wireguard_config.go:57-82 | for every text, no value has a line break, a leading blank or a bracket pair |
| `ConfigParser.HeaderStep` | vpn/wireguard_config.go:61-77 | a header completes the pending peer and starts an empty section |
| `ConfigParser.InterfaceStep` | vpn/wireguard_config.go:85-103 | an interface attribute overrides an earlier one of the same key and touches nothing else |
| `ConfigParser.PeerStep` | vpn/wireguard_config.go:104-145 | a peer attribute changes the pending peer, AllowedIPs and Endpoint also the tunnel |
| `ConfigParser.IgnoredStep` | vpn/wireguard_config.go:73-84 | attributes outside the two known sections change nothing |
| `ConfigParser.ErrorStands` | vpn/wireguard_config.go:84-149 | an error found after some lines is the error of the whole text |
| `ConfigParser.ParseAllowedIPs` | vpn/wireguard_config.go:110-126 | one network per item follows those already there, the i-th the one the i-th item denotes, or the first bad item is the error; the route flag is set if and only if it was or an item is "0.0.0.0/0" |
| `ConfigParser.InterfaceAttribute` | vpn/wireguard_config.go:86-103 | the switch meets the meaning of each interface key and rejects the others |
| `ConfigParser.PeerAttribute` | vpn/wireguard_config.go:105-145 | the switch meets the meaning of each peer key and rejects the others |
| `ConfigParser.ParseHeader` | vpn/wireguard_config.go:61-77 | keeps the loop invariant across a header |
| `ConfigParser.ParseAssignment` | vpn/wireguard_config.go:84-146 | keeps the loop invariant across an attribute, or returns the first error |
| `ConfigParser.ParseLine` | vpn/wireguard_config.go:59-149 | keeps the loop invariant across any line, and the pending key is empty again |
| `ConfigParser.NewWireguardConfigFromTarget` | vpn/wireguard_config.go:36-157 | for every text: the meaning of its sections (one peer per Peer header in order, last value wins, networks concatenated, unknown sections ignored), or the first error in text order |
| `ConfigParser.DefaultRouteExactly` | vpn/wireguard_config.go:110-121 | a parsed text is a default route if and only if some item of some AllowedIPs line in some Peer section is literally "0.0.0.0/0" |
| `ConfigMeaning.ParsesExactly` | vpn/wireguard_config.go:84-146 | a text parses if and only if every Interface attribute is a good PrivateKey, an Address or a DNS, and every Peer attribute a good PublicKey, AllowedIPs, Endpoint or PersistentKeepalive |
| `ConfigMeaning.FirstCulpritReported` | vpn/wireguard_config.go:84-146 | the error is that of the first attribute in text order that is not acceptable |
| `ConfigMeaning.InterfaceErrorExactly` | vpn/wireguard_config.go:86-103 | which error an Interface attribute raises: a bad key, or an unsupported name |
| `ConfigMeaning.PeerErrorExactly` | vpn/wireguard_config.go:105-145 | which error a Peer attribute raises: a bad key, endpoint or number, or an unsupported name |
| `ConfigMeaning.BadItemReported` | vpn/wireguard_config.go:112-124 | of a line of networks the first bad item is reported |
| `ConfigMeaning.PeersConcat` | vpn/wireguard_config.go:61-63 | peers come in the order of their sections |
| `ConfigMeaning.OneSection` | vpn/wireguard_config.go:66-76 | a Peer section makes one peer, any other section none |
| `ConfigMeaning.PeerNetworks` | vpn/wireguard_config.go:110-126 | a peer has exactly one network per item of its AllowedIPs lines, in order, the one the item denotes |
| `ConfigMeaning.PeerScalars` | vpn/wireguard_config.go:105-138 | key, endpoint and keepalive of a peer are those given last in its section, or unset |
| `ConfigMeaning.TunnelScalars` | vpn/wireguard_config.go:86-96 | private key, address and DNS are those given last in any Interface section, or unset |
| `ConfigMeaning.EndpointsConcat` | vpn/wireguard_config.go:127-131 | endpoint addresses come in text order |
| `ConfigMeaning.OneEndpoint` | vpn/wireguard_config.go:127-131 | an Endpoint line yields its resolved address, any other line none |
| `ConfigMeaning.LinePassedOver` | vpn/wireguard_config.go:79-84 | lines without equals sign, and lines that do not start with a key, say nothing |
| `ConfigPrinter.PrintInterface` | vpn/wireguard_config_data.go:36-53 | the interface attributes, DNS only when not empty |
| `ConfigPrinter.PrintPeer` | vpn/wireguard_config_data.go:55-76 | the peer attributes, subnets only when there are any |
| `ConfigPrinter.Data` | vpn/wireguard_config_data.go:32-79 | the step-by-step buffer is the two sections line by line |
| `ConfigPrinter.PrintedText` | vpn/wireguard_config_data.go:36-76 | the text itself, literally |
| `ConfigPrinter.AssignmentReads` | vpn/wireguard_config.go:79-82 | a printed attribute reads back as itself |
| `GoText.LinesOfUnlines` | vpn/wireguard_config.go:57-59 | scanning undoes writing lines, up to carriage returns at line ends |
| `ConfigPrinter.PrintedReadsBack` | vpn/wireguard_config_data.go:32-79 | the printed text has the two sections with the printed values, less trailing carriage returns |
| `ConfigRoundTrip.SectionsSurvive` | vpn/wireguard_config_data.go:32-79 | the sections survive unchanged if and only if no value has a line break, a leading blank, a bracket pair or a trailing carriage return |
| `ConfigBrackets.BracketsNeverSurvive` | vpn/wireguard_config.go:33-61 | the sections of a record with a bracketed endpoint never survive printing |
| `ConfigBrackets.BracketedSections` | vpn/wireguard_config.go:33-77 | the host becomes a section that takes the rest of the peer along |
| `ConfigBrackets.BracketedEndpointIsLost` | vpn/wireguard_config.go:33-156 | with the other fields clean and a host other than the two section names, parsing succeeds if and only if both keys are good, and yields one peer with its key only: no endpoint, keepalive or networks |
| `ConfigRoundTrip.RoundTrip` | vpn/wireguard_config_data.go:32-79 | parsing the printed form of a well-formed record succeeds if and only if the field parsers accept every field, and then gives one peer with the same key, endpoint and keepalive, as many networks as subnets and the i-th the one of the i-th subnet, the address with "/32" and the DNS server |
| `ConfigRoundTrip.PrintingIsInjective` | vpn/wireguard_config_data.go:32-79 | different well-formed records print differently |
| `DeviceSpec.HandshakeInherits` | tailscale/wireguard_device.go:222-233 | a peer's own lines decide its handshake if they determine one; otherwise it gets an earlier peer's seconds exactly when these are positive and it has a positive nanoseconds line with no seconds line before it |
| `DeviceSpec.BorrowedHandshake` | tailscale/wireguard_device.go:222-233 | an error-free reply with two peers in which the second combines the seconds of the first with its own nanoseconds |
| `DeviceParsing.Step` | tailscale/wireguard_device.go:169-248 | the peer count matches the list, peers are being read exactly when there is one, and a set error is never overwritten |
| `DeviceParsing.RunTracks` | tailscale/wireguard_device.go:169-248 | after any list of pairs the error is the first one raised, and without one the device is what the groups describe |
| `DeviceParsing.DeviceParser.constructor` | tailscale/wireguard_device.go:120 | nothing parsed, no error |
| `DeviceParsing.DeviceParser.ParseKey` | tailscale/wireguard_device.go:251-269 | 32 bytes of hex or the sticky error; the zero key once there is one |
| `DeviceText.DecodeUndoesPrint` | tailscale/wireguard_device.go:256 | decoding gives back any bytes from their hex digits, in lower and upper case |
| `DeviceText.DecodesExactly` | tailscale/wireguard_device.go:256-260 | a text decodes if and only if it is an even number of hex digits, into half as many bytes |
| `DeviceText.KeyRead` | tailscale/wireguard_device.go:256-266 | a key is 32 decoded bytes; another number of bytes, and a text that does not decode, are errors that say so |
| `DeviceText.PrintedKeyDenotes` | tailscale/wireguard_device.go:251-269 | the hex form of any 32 bytes is a text for that key |
| `DeviceText.PrintedNumberDenotes` | tailscale/wireguard_device.go:272-299 | the decimal form of any 64-bit number is a text for it |
| `DeviceParsing.DeviceParser.ParseInt` | tailscale/wireguard_device.go:272-299 | a decimal 64-bit number or the sticky error |
| `DeviceParsing.DeviceParser.ParseCIDR` | tailscale/wireguard_device.go:317-329 | a network or the sticky error |
| `DeviceParsing.DeviceParser.PeerParse` | tailscale/wireguard_device.go:215-248 | changes the current peer only, whose index is in range |
| `DeviceParsing.DeviceParser.Parse` | tailscale/wireguard_device.go:169-207 | one pair: errno, a new peer, a peer field or a device field |
| `DeviceParsing.ParseLine` | tailscale/wireguard_device.go:129-135 | one line is passed on if and only if it is a pair |
| `DeviceParsing.ParseLines` | tailscale/wireguard_device.go:122-136 | stops at the first empty line, or at the first line that is not a pair |
| `DeviceParsing.BadLineDecides` | tailscale/wireguard_device.go:131-133 | a malformed line beats any error in a value |
| `DeviceParsing.ParseDevice` | tailscale/wireguard_device.go:119-166 | for every text: the device the grouped reading describes with its derived public key, or the error that reading gives |
| `DeviceText.TxBytesLine` | tailscale/wireguard_device.go:234-235 | after any good reply with a peer, a `tx_bytes` line sets the sent bytes of the last peer and nothing else |
| `DeviceText.RxBytesLine` | tailscale/wireguard_device.go:236-237 | the same for `rx_bytes` and the received bytes |
| `DeviceText.ProtocolVersionLine` | tailscale/wireguard_device.go:245-246 | the same for `protocol_version` |
| `DeviceText.KeepaliveLine` | tailscale/wireguard_device.go:238-239 | the same for `persistent_keepalive_interval`, times a second, in 64 bits |
| `DeviceText.HandshakeLines` | tailscale/wireguard_device.go:222-233 | seconds and nanoseconds set the handshake of the last peer if and only if both are positive |
| `DeviceText.PresharedKeyLine` | tailscale/wireguard_device.go:218-219 | the same for `preshared_key` |
| `DeviceText.AllowedIPLine` | tailscale/wireguard_device.go:240-244 | `allowed_ip` adds one network at the end |
| `DeviceText.PublicKeyLine` | tailscale/wireguard_device.go:179-189 | `public_key` adds a peer with that key and otherwise unset |
| `DeviceText.PrivateKeyLine` | tailscale/wireguard_device.go:200-201 | `private_key` sets the device's key before the first peer, and nothing after it |
| `DeviceText.ListenPortLine` | tailscale/wireguard_device.go:202-203 | the same for `listen_port` |
| `DeviceText.FirewallMarkLine` | tailscale/wireguard_device.go:204-205 | the same for `fwmark` |
| `DeviceText.EndpointLine` | tailscale/wireguard_device.go:220-221 | `endpoint` changes nothing |
| `DeviceText.ErrnoLine` | tailscale/wireguard_device.go:171-178 | a non-zero `errno` is the outcome, zero changes nothing |
| `DeviceText.BadCountLine` | tailscale/wireguard_device.go:286-296 | a count that is no number is the outcome |
| `DeviceText.EmptyLineEnds` | tailscale/wireguard_device.go:124-127 | an empty line ends the reply, whatever follows |
| `DeviceText.MalformedLine` | tailscale/wireguard_device.go:130-133 | a line without exactly one equals sign is the outcome, whatever follows |
| `DeviceText.TrafficReply` | tailscale/wireguard_device.go:119-166 | the text of a reply with a key and both counts describes exactly that device |
| `PortMapping.LeaseOutlastsInterval` | network/port_mapper.go:117-121 | the lease exceeds the interval by more than 59 seconds if and only if the requested seconds fit in 32 bits |
| `PortMapping.LongIntervalAsksForZeroSeconds` | network/port_mapper.go:345 | an interval for which the router is asked for zero seconds |
| `PortMapping.PortMapper.constructor` | network/port_mapper.go:112-125 | the timeout is the interval plus a minute, in 64 bits; no mappings |
| `PortMapping.LeaseIsTruncated` | network/port_mapper.go:345 | the seconds asked for are the timeout without its fraction, while they fit in 32 bits |
| `PortMapping.PortMapper.AddPortMapping` | network/port_mapper.go:327-347 | after an accepted request the router holds, under the protocol and external port, exactly the requested rule and its end; every other port, and every port after a refusal, is untouched |
| `PortMapping.PortMapper.AddPersistentPortMapping` | network/port_mapper.go:271-308 | a mapping joins the list exactly when the router accepted it |
| `PortMapping.PortMapper.RefreshPortMappings` | network/port_mapper.go:221-246 | every mapping is renewed in list order, failures passed over, and the interval returned |
| `PortMapping.RefreshReaches` | network/port_mapper.go:230-244 | after a pass each port holds the last listed mapping for it whose renewal succeeded, unaltered, with the lease of that renewal |
| `PortMapping.RefreshSpares` | network/port_mapper.go:230-244 | ports not on the list, or whose renewals all failed, are left alone |
| `PortMapping.StepsMatchRequests` | network/port_mapper.go:221-308 | accepting and renewing in a timed run do to the leases what the object's requests do |
| `PortMapping.InvKept` | network/port_mapper.go:221-308 | every step of a timed run keeps how far each lease reaches |
| `PortMapping.SlackSuffices` | network/port_mapper.go:221-308 | if interval and delays stay below the lease, no lease lapses in any run, also not of a mapping still waiting for the lock |
| `PortMapping.LeasesNeverLapse` | network/port_mapper.go:117-308 | in particular when the delays stay within 59 seconds and the lease fits in 32 bits |
| `PortMapping.SlackIsExact` | network/port_mapper.go:221-308 | leases survive all runs of a budget if and only if the bound holds, or time cannot pass at all |
| `AuthSession.FirstFailure` | mycsnode/api_client.go:258-339 | an exchange succeeds if and only if all six calls do and name and nonce match; otherwise the error is that of the first step that fails, for the request the server's message when there is one |
| `AuthSession.FailureLeaves` | mycsnode/api_client.go:258-339 | a failed exchange leaves expiry and ID key, and the cipher unless building it was what failed |
| `AuthSession.AfterExchange` | mycsnode/api_client.go:258-339 | no failure if and only if the record is, as a whole, what this exchange established; after a failure the flag is off |
| `AuthSession.ApiClient.constructor` | mycsnode/api_client.go:134-151 | no session yet |
| `AuthSession.ApiClient.Authenticate` | mycsnode/api_client.go:237-340 | true if and only if every call succeeded and name and nonce matched; the record after an exchange that may fail at any step, and the first failure |
| `AuthSession.ApiClient.Reset` | mycsnode/api_client.go:342-348 | clears the flag and nothing else |
| `AuthSession.ApiClient.IsAuthenticated` | mycsnode/api_client.go:354-361 | the flag is set and the clock, in whole milliseconds, is before the expiry |
| `AuthSession.ApiClient.AuthCallback` | mycsnode/api_client.go:216-235 | the retry time after a failure, else 50 ms less than the remaining life of the key, in 64-bit arithmetic |
| `AuthSession.SessionIsFromLatestExchange` | mycsnode/api_client.go:255-348 | in every run with failures anywhere and resets: while the flag is set, cipher, expiry and ID key come from the latest exchange started, whose nonce and name matched |
| `AuthSession.SessionHasNoGaps` | mycsnode/api_client.go:216-361 | in every undisturbed run with at most 49 ms lag, nobody who holds the mutex after the first exchange began finds the session invalid, however long exchanges take |
| `AuthSession.LagBoundIsExact` | mycsnode/api_client.go:216-361 | undisturbed runs are free of gaps if and only if the lag is at most 49 ms |

## Left out

- Timestamps, names and attributes inside counter snapshots, and the sharing of the attribute map between counter and snapshots.
- JSON, zlib, base64, RSA, ECDH and HTTP: their outcomes are inputs. A payload read back from JSON is the payload that was written.
- A failure to set the JSON data of an event (`monitors/monitor.go:175-180`), which the code logs and then sends the event without data.
- Wrap-around of the send countdown, which for count 0 would take 2^63 ticks.
- `Stop` as one method of the service object: its waiting depends on other goroutines, so it is a phase of the transition system.
- `NewCounterWithAttribs` and `MapCloudEventsToPublishDataInputs`: the same code as their modelled siblings but for attributes and the source stamp.
- Key, CIDR and UDP address parsing in the configuration parser: abstract partial functions. Hex keys of the device parser are concrete.
- Scanner limits on line length and read errors of the input stream.
- Saving, QR codes, status text, the VPN clients, services and OpenVPN, and the Tailscale daemon around the device parser: wiring of external packages.
- UPnP discovery, `Connect`, `Close` and the `ToSelf` variants of the port mapper.
- `WaitForAuth`, `Crypt` and the request signing of the API client, and callers of `Authenticate` other than the renewal callback.
- The meaning a router gives to a request of zero seconds, which it may take as a lease without end: the model lets such a lease end at once.
- The execution timer: it is assumed to call back after the returned number of milliseconds plus a lag.
