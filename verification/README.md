# rsync-proxy: a verified model

This project models the parts of rsync-proxy in which its guarantees are made, and proves those guarantees.

| file | what it models |
|---|---|
| `QueueModel.dfy` | the admission queue of `pkg/queue/queue.go` as a state machine over tickets |
| `QueueRuns.dfy` | what every run of that machine keeps, under any limits and under limits that are never loosened |
| `QueueLine.dfy` | while the limit stays the same the queue is one line: refinement, positions, exact waiting bound |
| `AdmissionQueue.dfy` | the queue, its handles and its one-slot channels as classes, updated in place |
| `ChannelProtocol.dfy` | the channels step by step: the holder of the mutex against receiving owners |
| `RelaySystem.dfy` | many relays and configuration reloads around the queues |
| `Reload.dfy` | `loadConfig` as a method of a class, on the queue objects |
| `Routing.dfy` | the module table and the hash of the client address |
| `Streams.dfy` | connections as byte streams: `readLine` and `io.Copy` over every fragmentation |
| `Handshake.dfy` | `relay` as a transformer of byte streams |
| `Listing.dfy` | the module list printed by one proxy and parsed by another |
| `Metrics.dfy` | label escaping, grouping and line order of the Prometheus output |
| `Counters.dfy` | the lifetime counters at the granularity of single atomic additions |
| `Sorting.dfy` | sorting, and why its result does not depend on the input order |

How the parts fit together:

* A `QueueModel.State` is what the queue's mutex protects. Each `Acquire` takes the next ticket number, so arrival
  order is numeric order; `published` remembers the newest status written to each ticket's channel.
* `AdmissionQueue` has the loops and the in-place updates. Each method is one critical section and leaves the object
  in exactly the state that the function of `QueueModel` gives; a send on a closed or full channel is excluded by
  precondition. `ChannelProtocol` breaks the same critical sections into single channel operations, with receives
  between any two of them, and proves that the whole refines the atomic functions. `RelaySystem` uses the functions.
* Properties of the queue come in two strengths. While `max` stays the same, however often reloads set it again, the queue
  is one line in arrival order. Under arbitrary `SetMax` that is false, because `SetMax` neither pops nor announces and
  `Acquire` looks at `active` alone. For that case the project proves exactly which steps lose which property
  (`SettledLostExactly`, `OvertakesExactly`, `StaleExactly`, `NegativeIndexExactly` are equivalences) and gives runs that get
  there (`RaisedLimitOvertakes`, `NegativeIndexReached`). The waiting bound holds in every reachable state without a free
  slot when it counts the handles in front. When it counts older handles, it holds over every continuation if and only if no
  younger handle is admitted already (`OlderBoundExactly`; `AheadMayBeYounger` is a run with one).
* More claims one could make of the code hold only under a condition, which is proved to be the exact one.
  An upstream keeps its queue object if and only if no reload in between drops it (`SameObjectExactly`).
  A relay is transparent towards the upstream if and only if the module read ends in a newline (`Relay`; `LongRequestIsCut`
  is a client whose bytes are changed).
  An upstream's text is accepted under every error-free fragmentation if and only if it starts with the protocol prefix and
  ends in a newline or fills the 256-byte buffer (`UpstreamTextExactly`; for other texts `FragmentsDecide`).
  Discovery reads back another proxy's list if and only if every module name is non-empty and free of white space, and that
  proxy's message of the day is empty or has a blank text after its last newline (`PrintParseRoundTrip`). Two hypotheses
  remain there: no module name and no line of the message of the day starts with "@RSYNCD:". Such a line ends the list early;
  behind a message that is discarded, names of this kind are never read back (`ListableExactly`).

Main results: `QueueLine.FixedLimitIsOneLine`, `QueueLine.ExactWaitingBound`, `QueueLine.OlderBoundExactly`,
`QueueRuns.RunInv`, `QueueRuns.AcquireMeans`, `QueueRuns.OvertakesExactly`, `QueueRuns.NegativeIndexExactly`,
`ChannelProtocol.EveryInterleaving`, `ChannelProtocol.NoLostWakeUp`, `ChannelProtocol.ReceivedIsPublished`,
`ChannelProtocol.PositionsNeverIncrease`, `RelaySystem.OpenConnectionsBounded`, `RelaySystem.ConfiguredBound`,
`RelaySystem.StatusDecides`, `RelaySystem.ReloadInstalls`, `RelaySystem.SameObjectExactly`,
`RelaySystem.SlotsConserved`, `Reload.Server.LoadConfig`, `Reload.RoutingIgnoresMapOrder`, `Routing.InverseIndex`,
`Routing.ExactBalance`, `Handshake.Relay`, `Listing.PrintParseRoundTrip`, `Metrics.LabelsInjective`,
`Counters.CountersConserved`.

`dafny verify dfyconfig.toml` checks everything.

## Model

| member | source | states |
|---|---|---|
| `QueueLine.FixedLimitIsOneLine` | pkg/queue/queue.go:71-152 | for every run in which each `SetMax` repeats the same non-zero `max` (`maxQueued` may change): `active` and `queued` are one line in arrival order, cut after its first `max` people; a handle is admitted, and told so, exactly when fewer than `max` older live handles exist; each waiter's newest index is its place, its newest queue length lies between that place and the present length and does not decrease along the queue |
| `QueueLine.MatchesStep` | pkg/queue/queue.go:71-152 | one `Acquire`, `Release` or repeated `SetMax` is one step of the reference line, which has no lists, pops or statuses |
| `QueueLine.AnnouncedExactly` | pkg/queue/queue.go:90-94 | right after any first release every remaining waiter's newest status is its place and the queue length; right after an arrival that must wait, so is the newcomer's |
| `QueueRuns.Reannounced` | pkg/queue/queue.go:168-173 | under arbitrary limits, any first release announces its place behind the surplus to every remaining waiter |
| `QueueLine.ExactWaitingBound` | pkg/queue/queue.go:119-152 | from any reachable state without a free slot, whatever the limits were before, a waiter at place i behind surplus s is admitted, while `max` stays the same, exactly when s + i + 1 handles that stood in front of it have been released; nothing behind it changes this |
| `QueueLine.WaitingRun` | pkg/queue/queue.go:77-152 | the induction behind the bound, for any settled line |
| `QueueLine.OlderBoundExactly` | pkg/queue/queue.go:119-152 | in any reachable state without a free slot, a waiter is admitted by the departure of surplus + place + 1 older live handles, over every continuation with the same `max`, if and only if no younger handle is admitted already |
| `QueueLine.ArrivalOrderBound` | pkg/queue/queue.go:119-152 | in particular with limits never loosened the bound counts older live handles |
| `QueueLine.AheadMayBeYounger` | pkg/queue/queue.go:71-86 | a run with a raise and a lowering after which a waiter behind surplus 1 is let in by the departure of a younger handle |
| `QueueRuns.RunInv` | pkg/queue/queue.go:71-152 | over every run, with arbitrary `SetMax`: the lists are duplicate-free, disjoint, jointly the live tickets that were not rejected, `queued` in arrival order, and every newest status agrees with the list its ticket is in |
| `QueueRuns.StepInv` | pkg/queue/queue.go:71-152 | one operation keeps that invariant |
| `QueueRuns.AcquireMeans` | pkg/queue/queue.go:77-96 | what an `Acquire` does under any limits: admitted if there is room, else rejected exactly when `maxQueued` is set and that many already wait, else last in line and told its place behind the surplus; nobody else is touched |
| `QueueRuns.ReleaseShape` | pkg/queue/queue.go:119-152 | a release removes its ticket and moves exactly a prefix of the waiters into the free slots, in order; for a waiter's release the prefix is empty |
| `QueueModel.PopAllShape` | pkg/queue/queue.go:148-150 | closed form of the pop loop: how many waiters it admits, that they are the oldest, and which statuses change |
| `QueueModel.BroadcastAt` | pkg/queue/queue.go:168-173 | closed form of the announcement loop: who is told which place |
| `QueueModel.BroadcastFrame` | pkg/queue/queue.go:168-173 | announcing changes the statuses of waiters and nothing else |
| `QueueModel.WithoutKeeps` | pkg/queue/queue.go:124-146 | the rebuild loop takes out exactly one entry if there is one, and keeps order |
| `QueueRuns.ReleaseSettles` | pkg/queue/queue.go:137-152 | releasing any handle that is not waiting leaves nobody waiting beside a free slot, under any limits |
| `QueueRuns.SettledLostExactly` | pkg/queue/queue.go:71-75 | that state is lost exactly by raising or lifting the limit over the heads of waiting handles |
| `QueueRuns.OvertakesExactly` | pkg/queue/queue.go:83-86 | a step lets somebody in past an older waiting handle if and only if it is an `Acquire` that finds a free slot and a non-empty queue |
| `QueueRuns.NeverLoosened` | pkg/queue/queue.go:71-152 | with limits never loosened, every reachable state is one line in arrival order with nobody beside a free slot, and no next step overtakes |
| `QueueRuns.RaisedLimitOvertakes` | pkg/queue/queue.go:71-86 | a three-operation run, raising the limit from 1 to 2, after which the next arrival overtakes a waiter |
| `QueueRuns.WaiterGivesUp` | pkg/queue/queue.go:131-135 | what the others are told when a waiter gives up, under any limits |
| `QueueRuns.StaleExactly` | pkg/queue/queue.go:71-96 | published places go stale, under any limits, exactly when the limit changes or a newcomer is let in over the heads of waiting handles |
| `QueueRuns.NegativeIndexExactly` | pkg/queue/queue.go:119-173 | a step publishes a negative index if and only if it releases a waiter while others wait and a raised limit has left free slots |
| `QueueRuns.NegativeIndexReached` | pkg/queue/queue.go:71-135 | a run after which a waiter is told place -4 |
| `QueueRuns.WaitersAdmittedInOrder` | pkg/queue/queue.go:110-117 | two handles that wait together are admitted in arrival order over any continuation, whatever the limits do |
| `QueueRuns.GrowthCapped` | pkg/queue/queue.go:83-150 | no step grows `active` beyond the current non-zero limit |
| `AdmissionQueue.Queue.constructor` | pkg/queue/queue.go:39-41 | a new queue is valid and empty |
| `AdmissionQueue.Queue.SetMax` | pkg/queue/queue.go:71-75 | sets the limits and nothing else |
| `AdmissionQueue.Queue.Acquire` | pkg/queue/queue.go:77-96 | the object ends in the model's `Acquire` state; the handle's new channel holds the first status |
| `AdmissionQueue.Queue.PopHead` | pkg/queue/queue.go:111-117 | as the model's `PopHead`, with the channel sent to and closed once, while open |
| `AdmissionQueue.Queue.BroadcastStatus` | pkg/queue/queue.go:168-173 | the loop announces exactly what the model does and never sends on a closed channel |
| `AdmissionQueue.Queue.ReleaseFromHandle` | pkg/queue/queue.go:119-152 | as the model's `Release`, early return included |
| `AdmissionQueue.Queue.Rebuild` | pkg/queue/queue.go:124-145 | the filter loop computes the list without one channel |
| `AdmissionQueue.Queue.PopWhileRoom` | pkg/queue/queue.go:148-150 | the pop loop, with its termination, is the model's `PopAll` |
| `AdmissionQueue.Handle.Release` | pkg/queue/queue.go:155-165 | releasing is idempotent and is the model's `Release` |
| `AdmissionQueue.Handle.Next` | pkg/server/server.go:653-677 | an owner that has not read the newest status receives exactly it |
| `AdmissionQueue.Channel.TrySend` | pkg/queue/queue.go:175-181 | on an open channel the new status replaces whatever was unread |
| `ChannelProtocol.EveryInterleaving` | pkg/queue/queue.go:77-181 | over every interleaving of callers, the lock holder's single channel steps and receiving owners: no send or close hits a closed channel, no send blocks, no owner reads the zero value of a closed channel, and when the mutex is free the state is that of the atomic operations in lock order |
| `ChannelProtocol.NoLostWakeUp` | pkg/queue/queue.go:111-117 | in every reachable state, between any two steps of the lock holder, the newest status of every handle the holder is not about to write to is in its channel or was the last one seen; an admitted handle whose owner has not seen Ok has Ok waiting |
| `ChannelProtocol.ReceivedIsPublished` | pkg/server/server.go:653-677 | a final status received at any moment, in the middle of an operation too, is the newest status its unreleased ticket has in the state of the atomic operations in lock order |
| `ChannelProtocol.LockedStepsBounded` | pkg/queue/queue.go:148-173 | in every reachable state the lock holder can move, each move brings the unlock nearer, receives do not delay it, and the number of moves is linear in the queue length |
| `ChannelProtocol.PositionsNeverIncrease` | pkg/server/server.go:669-691 | while every `SetMax` repeats the same non-zero `max`, the positions a client receives never increase over its whole wait, despite overwritten statuses, and are never negative |
| `ChannelProtocol.SafeStep` | pkg/queue/queue.go:77-181 | every single step keeps: waiting channels open, admitted and rejected ones closed, newest status buffered or seen |
| `ChannelProtocol.SafeMeans` | pkg/queue/queue.go:175-181 | that invariant excludes panics, blocking sends and zero reads |
| `ChannelProtocol.OutcomeStep` | pkg/queue/queue.go:77-152 | starting an operation performs it on the eventual state; holder steps and receives leave the eventual state alone |
| `ChannelProtocol.HolderProgress` | pkg/queue/queue.go:148-173 | the holder's measure decreases with each of its steps |
| `RelaySystem.OpenConnectionsBounded` | pkg/server/server.go:651-699 | over every interleaving of relays and reloads, each relay with an open upstream connection owns its own `active` entry of one queue object; open connections never outnumber the entries nor, unless 0 was ever configured, the largest limit configured |
| `RelaySystem.UpstreamConnectionsBounded` | pkg/server/server.go:331-343 | as long as no reload has dropped an upstream, whenever it was first listed, all connections open to it stay within the `active` entries of its one queue object and, unless 0 was ever configured, the largest limit configured |
| `RelaySystem.ConfiguredBound` | pkg/server/server.go:331-343 | in terms of the configurations alone: as long as no reload drops an upstream and each lists it with a limit between 1 and a given number, no more connections than that number are open to it |
| `RelaySystem.SameObjectExactly` | pkg/server/server.go:331-343 | between two points of a run at which the table has an upstream, its queue object is the same if and only if no reload that took effect in between dropped it |
| `RelaySystem.ReaddedUpstreamStartsOver` | pkg/server/server.go:331-343 | what a drop leads to: the name listed again has a new, empty queue beside the old occupants |
| `RelaySystem.SlotsConserved` | pkg/server/server.go:651-652 | every ticket out is held by the relay that took it, so when all relays have gone every queue is empty |
| `RelaySystem.GivenBackOnce` | pkg/server/server.go:651-652 | the deferred release finds its ticket unreleased and releases it, once |
| `RelaySystem.RequestGetsInLine` | pkg/server/server.go:631-652 | a client that asks for a known module gets to wait, by its own next steps, in the queue the table has for the upstream its address is hashed to, with one `Acquire` of that queue; one that asks for an unknown module is gone; nothing else changes |
| `RelaySystem.StatusDecides` | pkg/server/server.go:653-699 | in every reachable state a waiting relay that reads its status goes on as it says: after Ok it can dial and has its connection open under the same ticket, after Full it leaves, otherwise nothing changes |
| `RelaySystem.EveryExitGivesBack` | pkg/server/server.go:651-699 | in every reachable state, even in the middle of a reload, a relay that has a ticket can leave by its own next steps, after which it is gone, its queue has seen exactly the release of its ticket, and nothing else has changed |
| `RelaySystem.LookUpsSucceed` | pkg/server/server.go:639-649 | the index chosen from the client address is never out of range, and every target's upstream has a queue |
| `RelaySystem.WorldStep` | pkg/server/server.go:571-699 | every step of every relay and of a reload keeps the system invariant |
| `RelaySystem.SameQueueStep` | pkg/server/server.go:331-357 | a relay bound for an upstream uses the queue the table has for it, as long as no step drops that upstream |
| `RelaySystem.SwappedTables` | pkg/server/server.go:304-307 | after the exchange of the tables every routed target still has a queue |
| `RelaySystem.ReloadInstalls` | pkg/server/server.go:304-343 | a whole reload from any reachable state: the listed names get queues with their configured limits, a surviving name its old one with everybody in it, a new name an empty one; the module table is installed; relays and unlisted queues are left alone |
| `Reload.Server.LoadConfig` | pkg/server/server.go:219-310 | succeeds exactly when the configuration is acceptable; a failed load leaves modules, upstreams, queues with their limits, message of the day and certificate as they were; a successful one installs exactly the configured upstreams, in name order, each with its own address, PROXY setting, limits and modules (the discovered ones if it discovers), and a queue with its own two limits; surviving names keep their queue objects and occupants |
| `Reload.Server.Prepare` | pkg/server/server.go:219-286 | the checks before any change: exactly which configurations are refused, and what is built from the others |
| `Reload.Server.CheckUpstreams` | pkg/server/server.go:249-272 | the upstream loop accepts exactly when every upstream has modules or discovery and a valid address, and lists them in name order |
| `Reload.Server.UpdateQueues` | pkg/server/server.go:331-343 | exactly the listed names get queues, surviving ones re-limited in place, others new; no two names share one |
| `Reload.Server.BuildQueues` | pkg/server/server.go:331-343 | the loop itself, in terms of the objects and their limits |
| `Reload.Server.Commit` | pkg/server/server.go:304-308 | the server is valid again with the new tables |
| `Reload.FirstGivenStays` | pkg/server/server.go:287-295 | over any sequence of loads, failed ones that got that far included, the first listen address given stays; `LoadConfig` keeps every address equal to the first one given |
| `Reload.Server.AcquireFor` | pkg/server/server.go:646-652 | an `Acquire` between two loads keeps the server valid and every other queue as it was |
| `Reload.Server.GiveBack` | pkg/server/server.go:651-652 | so does the deferred `Release`, also on a queue the server has replaced |
| `AdmissionQueue.ChannelsApart` | pkg/queue/queue.go:81 | two queues never share a channel |
| `Reload.Server.TargetsHaveQueues` | pkg/server/server.go:345-357 | in a valid server every routed name has targets and every target's upstream a queue with the limits configured for it |
| `Reload.ResolveUpstreams` | pkg/server/server.go:312-329 | discovered modules replace configured ones for discovering upstreams only |
| `Reload.RoutingIgnoresMapOrder` | pkg/server/server.go:249-272 | whatever order the map yields its keys in, the same configuration content gives the same upstream list, table and chosen target |
| `Reload.ConfiguredDistinct` | pkg/server/server.go:255-272 | the upstream list has no name twice |
| `Reload.ConfiguredNames` | pkg/server/server.go:249-272 | and lists exactly the configured names |
| `Reload.ConfiguredMeans` | pkg/server/server.go:249-272 | the list has each configured upstream once, in name order, with its own address, PROXY setting, limits, and configured or discovered modules |
| `Reload.Server.ConfigPlaced` | pkg/server/server.go:331-343 | if the queues are made from such a list, every configured name has a queue with the `max` and the `maxQueued` configured for it |
| `Routing.BuildModuleTargets` | pkg/server/server.go:389-397 | the loops build the table that lists a module exactly if some upstream offers it, with the targets in upstream order and multiplicity |
| `Routing.InverseIndex` | pkg/server/server.go:389-397 | the table is the inverse index: a target occurs under a module as often as its upstream lists that module |
| `Routing.TableListsNonEmpty` | pkg/server/server.go:345-350 | no target list is empty, and every target comes from an upstream that offers the module |
| `Routing.ChoiceInRange` | pkg/server/server.go:523-539 | the choice is a valid index for every non-empty target list whose length is not a multiple of 2^32 |
| `Routing.ChoiceMeans` | pkg/server/server.go:523-539 | for every count below 2^32 the choice differs from the hash by a multiple of the count; the hash is that of the address as it stands, or of the last four octets of an IPv4-mapped one; the first target without an address or a choice |
| `Routing.KnownHashes` | pkg/server/server.go:536-537 | the hash of the empty string, of "a" and of "fo" is the published 32-bit FNV-1a value |
| `Routing.XorIsBitwise` | pkg/server/server.go:536-537 | the exclusive or inside the hash differs from its operands bit by bit |
| `Routing.MappedAgrees` | pkg/server/server.go:528-531 | an IPv4 address and its IPv4-mapped IPv6 form choose the same target |
| `Routing.OneOctetApart` | pkg/server/server.go:536-537 | same-family addresses that differ in one octet never share a hash |
| `Routing.TimesPrimeInjective` | pkg/server/server.go:536-537 | multiplication by the FNV prime loses nothing modulo 2^32 |
| `Routing.ExactBalance` | pkg/server/server.go:523-539 | for 2^k targets, 1 <= k <= 8, and any fixed leading octets, the 256 values of the last octet give every target exactly 2^(8-k) addresses |
| `Streams.ReadLine` | pkg/server/utils.go:71-90 | takes exactly one line from the stream, for every fragmentation: up to the first read after which the last byte is a newline, the buffer is full or an error came; fails exactly when there is neither a newline nor a full buffer |
| `Handshake.Greet` | pkg/server/server.go:593-618 | the version copy survives the reuse of the buffer; version and request are the two lines of the client's stream; the client got version and message of the day; a failure has its cause in the stream or in a failed write |
| `Handshake.Decide` | pkg/server/server.go:620-693 | which requests are listed, unknown, rejected, or granted after their notices, and what the client is sent |
| `Handshake.UnknownModuleReply` | pkg/server/server.go:633-641 | the reply to an unknown module starts with "@ERROR: ", ends in a newline, is a single line if the name is, and gives the name back |
| `Handshake.Introduce` | pkg/server/server.go:701-720 | header and client version go upstream, the upstream's first line comes into the reused buffer; a failure has its cause in the stream or in a failed write |
| `Handshake.Forward` | pkg/server/server.go:722-734 | the bytes behind the upstream's first line go to the client, the request to the upstream, unless a write fails |
| `Streams.Copy` | pkg/server/server.go:743-764 | everything read is written, in order, up to the read that reports the end, unless a write fails; it fails only then |
| `Handshake.Converse` | pkg/server/server.go:701-778 | both directions of the opened conversation, for every fragmentation, to the end of both streams |
| `Handshake.Serve` | pkg/server/server.go:620-778 | dispatch and conversation together |
| `Handshake.Relay` | pkg/server/server.go:593-778 | the outcome has its cause in the inputs, and a relay that can take place does, completely, if no write fails; upstream: if the module read ends in a newline the bytes after the header are a prefix of the client's bytes, and all bytes read when no write fails, if and only if it does; downstream: preamble and then exactly what follows the upstream's first line; streams that arrive whole are delivered whole, in particular every error-free upstream whose text starts with the prefix and ends in a newline or fills the buffer, however it is fragmented; what listed, unknown and rejected clients are sent, with "@ERROR: Unknown module" and the quoted name written out |
| `Handshake.RelayedExactly` | pkg/server/server.go:593-778 | a relay happens only if both lines are read, the module is known and admitted, the dial succeeds and the upstream answers; without a failed write it then happens completely |
| `Handshake.OneOutcome` | pkg/server/server.go:593-778 | without a failed write the inputs decide the outcome |
| `Handshake.SteadyStreamsArrive` | pkg/server/server.go:743-764 | streams that do not fail while bytes are left arrive whole at both copies, whatever their fragments |
| `Handshake.UpstreamTextExactly` | pkg/server/server.go:713-720 | an upstream text gets past the version check under every error-free fragmentation if and only if it starts with the prefix and ends in a newline or fills the buffer |
| `Handshake.FragmentsDecide` | pkg/server/server.go:713-720 | a text that is accepted in two reads and not in one |
| `Streams.LineTextExactly` | pkg/server/utils.go:71-90 | a text is read as a line under every error-free fragmentation if and only if it ends in a newline or fills the buffer |
| `Handshake.LongRequestIsCut` | pkg/server/server.go:628-734 | a client stream with a 256-byte module read and no newline, for which a relay takes place and of which the upstream gets a changed byte |
| `Handshake.TailOfLine` | pkg/server/server.go:722-729 | buffered tail and unread stream together are the client's part wherever the fragments fell |
| `Handshake.RequestTransparent` | pkg/server/server.go:628-734 | cutting the last byte and adding a newline is invisible exactly when that byte was a newline |
| `Handshake.CutChangesOneByte` | pkg/server/server.go:628-734 | what goes upstream for a request is as long and differs in the last byte at most, which is a newline |
| `Streams.FirstNewlineExtends` | pkg/server/server.go:723 | later bytes do not move the first newline |
| `Listing.Discover` | pkg/server/server.go:476-511 | the version line is checked and the rest refines the declarative reading |
| `Listing.ReadModuleNames` | pkg/server/server.go:488-510 | the loop with its reset returns the sorted first fields of the lines after the last blank line before the first protocol line, or an error if there is no protocol line; in particular a listing of names, each followed by white space and any comment, gives exactly the names |
| `Listing.FirstFieldIs` | pkg/server/server.go:501-507 | the first field of blank text, a word, and anything that starts with white space or is empty, is that word |
| `Listing.CommentsIgnored` | pkg/server/server.go:488-510 | of a listing in the form that rsync daemons print, name, white space, comment, exactly the names are read |
| `Listing.ListAllModules` | pkg/server/server.go:550-569 | prints the names sorted, one a line, then the exit line |
| `Listing.PrintParseRoundTrip` | pkg/server/server.go:488-510 | if no name and no line of the message of the day starts with the protocol prefix: discovery run on another proxy's reply returns exactly its names, sorted, if and only if every name is non-empty and free of white space, and the message is empty or the text after its last newline is blank |
| `Listing.ListableExactly` | pkg/server/server.go:488-510 | behind a message of the day that is discarded, exactly the lists of names that are non-empty, free of white space and not like a protocol line are read back |
| `Listing.DiscoveredWellNamed` | pkg/server/server.go:501-507 | whatever discovery returns is non-empty and free of white space |
| `Listing.TrailingNewlineSuffices` | pkg/server/server.go:502-506 | a message of the day that ends in a newline is discarded |
| `Listing.ReplyMeans` | pkg/server/server.go:550-569 | what discovery makes of a reply: the names up to the first that looks like a protocol line, and what the message of the day leaves |
| `Listing.LinesOfText` | pkg/server/server.go:562-565 | printed lines are read back as the same lines |
| `Listing.TextOfLines` | pkg/server/server.go:493-497 | a text that ends in a newline is its lines |
| `Metrics.ThreePassesAreOne` | pkg/server/metrics.go:13-18 | three whole-string replacements are a single pass over characters |
| `Metrics.ReadUndoesEscape` | pkg/server/metrics.go:13-18 | a reader gets every string back and stops at the closing quote |
| `Metrics.LabelsInjective` | pkg/server/metrics.go:214-219 | different (module, upstream) pairs render to different label text |
| `Metrics.WriteModuleLines` | pkg/server/metrics.go:205-219 | one line for each key, in the order of modules and then upstreams, with its value, and no label text twice |
| `Metrics.ModuleFirst` | pkg/server/metrics.go:205-210 | lines are ordered by module, and within one module by upstream |
| `Metrics.LineReadBack` | pkg/server/metrics.go:214-219 | reading a line back gives its module, its upstream and its value |
| `Metrics.NormalizedShares` | pkg/server/metrics.go:20-25 | two keys render to the same labels after normalisation exactly if they agree up to an empty name and "unknown" |
| `Metrics.OutputIgnoresMapOrder` | pkg/server/metrics.go:185-210 | the order of the lines does not depend on the order of the map |
| `Metrics.GroupConnections` | pkg/server/metrics.go:108-116 | each group counts exactly the connections that render to its labels |
| `Metrics.KeysOrdered` | pkg/server/metrics.go:205-210 | the comparison is a total order |
| `Counters.CountersConserved` | pkg/server/server.go:780-790 | over every interleaving of atomic additions, modulo 2^64: accepted plus the handlers between their first two additions is active plus finished; each module entry is what its relays added; each global total exceeds the module sum by exactly what relays caught between contribute |
| `Counters.QuiescentCounts` | pkg/server/server.go:780-790 | with no relay reporting, the totals are the number of relays that have reported, the bytes they sent and the bytes they received, and each module entry has the same for its own relays |
| `Counters.QuiescentTotals` | pkg/server/server.go:783-790 | with no relay reporting, each total is the sum over modules |
| `Counters.OkStep` | pkg/server/server.go:983-1000 | every single addition keeps the balances |
| `Counters.ModuleSumTake` | pkg/server/server.go:377-387 | the sum over entries does not depend on the order of entries |
| `Sorting.SortedUnique` | pkg/server/server.go:254 | a sorted arrangement is determined by the elements alone |
| `Sorting.SortSorts` | pkg/server/server.go:561 | sorting sorts |
| `Sorting.StrLeMeans` | pkg/server/server.go:254 | the order of strings: a prefix comes first, otherwise the smaller byte at the first difference decides |

## Left out

- Sockets, TLS loading, dialing, deadlines, listeners, HTTP handlers, logging, the command line: plumbing. Reads and writes
  are scripts of fragments and failures, dial results and admission verdicts are inputs, time-outs are steps that change
  nothing.
- Integer width of list lengths and limits: the 64-bit `int` of Go is unbounded here; the lengths cannot reach its bounds.
  Counters, whose wrap-around matters, are modulo 2^64, and the hash is modulo 2^32.
- Negative `max`: excluded by type, since it admits nobody. `maxQueued` is any integer.
- `runtime.AddCleanup`: one more possible call of the idempotent `Release`. Two calls of `release` on one handle at the same
  moment, which read the `released` flag outside the mutex, are not modelled; `ChannelProtocol` lets a handle be released once.
- Bytes are `char`; nothing depends on values above 255. White space in a listing is the ASCII white space of
  `strings.Fields`, so Unicode spaces in module names are not covered.
- Handshake.Relay: the two `io.Copy` goroutines run one after the other, because they share no field of either
  connection; that the end of one closes the other connection (`pkg/server/server.go:765-776`) is a script of reads that ends
  early, in which case the bytes still to come are not delivered. The text of the queue notices and of the PROXY header are inputs. The
  test for an empty request at `pkg/server/server.go:608-610` can never succeed, as a comment in `Greet` records.
- Listing.Discover: works on all the bytes sent before the stream ends or fails, so `bufio` is not modelled, nor are the
  two writes that precede the reads.
- Reload.Server.LoadConfig: a load that fails on a log file has already set listen addresses that were empty; the contract
  does not say which log files were switched. TOML decoding, address checks and certificate loading are inputs.
- RelaySystem: a load that fails changes no table and so has no step. Listen addresses given outside the configuration are
  not modelled.
- RelaySystem: the queue operations are the atomic ones; their refinement is the subject of `ChannelProtocol`. Reading a
  status is reading the newest one: `ReceivedIsPublished` justifies it for final statuses, and other ones change nothing.
- Counters: byte counts are inputs of each handler. The per-upstream error counters, which nothing is balanced against, are
  left out.
- Metrics: gauges, HELP and TYPE text, the connection index label, the Go runtime metrics and float formatting.
- `ListUpstreamModules`, `GetMax` and the other plain reads: nothing to prove beyond the field they return.
