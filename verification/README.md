# Taillight: a verified model

Taillight ships, stores, streams and notifies about log events. This project models the parts
whose correctness is not visible from any one function, and proves what they promise about every
input, every reachable state and every interleaving.

- **The log shipper** (`pkg/logshipper/handler.go`). `ShipperBatch` is the background loop's
  bookkeeping, with every move it can make and the invariant all of them keep. `ShipperLoop` is the
  loop as an object that updates its fields in place. `ShipperProtocol` interleaves any number of
  `Handle` calls, the `Shutdown` barrier and the loop, `ShipperSteps` shows the
  two to agree, and `ShipperDecisions` says exactly when a record is dropped, rejected, flushed or given up. `ShipperPolicy` and `ShipperRetry` say what
  the retry policy does to each entry, in one flush and over whole runs. `ShipperEntry` builds one entry. `AttrTree` and `AttrHeap` are the nested
  attribute object, as a value and as the mutable maps it is built from.
- **The ingest endpoint** (`api/internal/handler/applog_ingest.go`). `Ingest` is the validation and
  its agreement with the shipper; `JsonEscape` is the in-place rewrite of NUL escapes.
- **The notification suppressor and engine** (`api/internal/notification/`). `Suppressor` holds the
  critical sections and the timers, `SuppressorHistory` the counters and the shape of what a key
  emits, `SuppressorRate` the windows, `SuppressorTiming` the timers, `SuppressorRuns` whole runs, `SuppressorObject` the object
  with its fields, and `EngineShutdown` the dispatch channel.
- **Stream fan-out** (`api/internal/broker/broker.go`, `api/internal/handler/sse_stream.go`).
  `Broker`, `BrokerOrder` and `ClientCounts` are the broker under every interleaving, `BrokerObject` the broker as
  an object, `SseStream` one connection: subscribe, backfill, live.
- **Matching and cursors** (`api/internal/model/srvlog.go`). `Utf8`, `FoldSearch`, `Glob`,
  `Decimal`, `Base64Url`, `Cursors`.
- **The mute rule cache** (`api/internal/mute/set.go`). `MuteSet` and `MuteReload`.

A concurrent component is a step relation whose steps are the atomic actions of the code: a lock
operation, an atomic load, a channel operation, one critical section. A run is a sequence of states
linked by enabled steps, and the theorems about runs hold for every state of every run. Answers of
the network, clocks, store results and user callbacks are parameters or part of the step.

## Where the code and its documentation differ

The model follows the code; each difference is proved, with the exact condition under which the
documented behaviour holds.

- `SendFailed` promises one retry after any failure that is not a rejection. Two kinds of entries get
  none: those of a batch set aside unsent, because the resend before it failed
  (`ShipperPolicy.OnlyOneAttempt`), and those retained when the loop ends, be it after the drain's last
  flush (`ShipperPolicy.OnlyOneAttemptAtTheEnd`) or, as documented, by an expired context. These are all:
  `ShipperRetry.SecondAttempt` is the exact condition over every run, and
  `ShipperRetry.SendsWhenGivenUp` counts the sends for each way of being given up.
- `containsFold` promises whether the lowercased string contains the needle. It is exact on valid
  UTF-8. On arbitrary bytes it is exact for precisely the lowercase needles that do not begin with
  U+FFFD (`FoldSearch.ExactForNeedle`, `FoldSearch.MissedAtStrayByte`).
- An attribute named `_value` below the top level can share its place with a displaced value. A slot
  without that name below the top level is disturbed by exactly the writes to or below its displaced
  place (`AttrTree.UndisturbedIffNotShadowed`), and a slot with it is overwritten by a clean one
  (`AttrTree.ReservedCollides`).
- The stub shipped when attributes fail to marshal is not capped, so it can be longer than the
  endpoint accepts (`Ingest.StubCanBeTooLong`); this is the only way a shipped entry can be refused
  (`Ingest.EntryAgreement`).

## Model

| member | source | states |
|---|---|---|
| `ShipperBatch.EffectiveBatchSize` | pkg/logshipper/handler.go:179-187 | The batch size in force: the requested one between 1 and 1000, 100 when the request is not positive, 1000 when it is more |
| `ShipperBatch.AnswersByCode` | pkg/logshipper/handler.go:822-832 | By status code: 2xx is a delivery, a 4xx other than 401, 408 and 429 a rejection, and no response or any other status is worth a retry |
| `ShipperBatch.BodyLength` | pkg/logshipper/handler.go:765-781 | The precomputed size (wrapper, commas, entries) is the length of the assembled body of any non-empty batch |
| `ShipperBatch.BodySpelled` | pkg/logshipper/handler.go:773-781 | The bytes of a body, spelled out entry by entry |
| `ShipperBatch.BuildBody` | pkg/logshipper/handler.go:765-781 | The loop in `send` writes prefix, entries separated by commas, suffix; its size estimate is exact |
| `ShipperBatch.SendRetryInv` | pkg/logshipper/handler.go:646-653 | Resending the retained batch keeps the loop invariant: limits, order, exact accounting, at most two sends |
| `ShipperBatch.SendBatchInv` | pkg/logshipper/handler.go:661-673 | So does sending the current batch, whatever the answer |
| `ShipperBatch.PostponeInv` | pkg/logshipper/handler.go:657-660 | So does setting the batch aside unsent |
| `ShipperBatch.RejectEntryInv` | pkg/logshipper/handler.go:680-694 | So does dropping an entry that does not encode or fits no request |
| `ShipperBatch.AppendInv` | pkg/logshipper/handler.go:698-702 | So does appending; the tracked byte count stays the length of the body the batch would make |
| `ShipperBatch.AbandonInv` | pkg/logshipper/handler.go:719-727 | So does giving up everything held or waiting when the shutdown context expires |
| `ShipperBatch.GiveUpRetryInv` | pkg/logshipper/handler.go:732-737 | So does counting a batch retained by the last flush as failed |
| `ShipperBatch.FlushInv` | pkg/logshipper/handler.go:644-674 | A whole flush keeps the invariant, empties the batch, only extends the requests, by at most two |
| `ShipperBatch.AddInv` | pkg/logshipper/handler.go:679-706 | A whole add keeps the invariant, takes one entry, and leaves the batch below the batch size |
| `ShipperBatch.DrainInv` | pkg/logshipper/handler.go:712-740 | A whole drain keeps the invariant, takes everything waiting and holds nothing back, whether or not the context expires |
| `ShipperBatch.ExactlyOneFate` | pkg/logshipper/handler.go:615-762 | Entry by entry: acknowledged, failed, retained or batched, and only one of these |
| `ShipperLoop.Shipper.Send` | pkg/logshipper/handler.go:765-804 | One request goes out: the bytes posted are the body made of exactly these entries, and the network's answer is recorded with it |
| `ShipperLoop.Shipper.Flush` | pkg/logshipper/handler.go:644-674 | The fields after a flush are those of the specification, for any answers |
| `ShipperLoop.Shipper.Add` | pkg/logshipper/handler.go:679-706 | One entry leaves the channel and the fields are those of the specification |
| `ShipperLoop.Shipper.Drain` | pkg/logshipper/handler.go:712-740 | The drain terminates with the fields of the specification: everything waiting taken, nothing retained, and acknowledged + failed covers every entry, also when the context expires midway |
| `ShipperSteps.FlushIsSteps` | pkg/logshipper/handler.go:644-674 | A flush of the loop is two steps of the interleaved protocol |
| `ShipperSteps.TickIsFlush` | pkg/logshipper/handler.go:756-757 | A tick of the flush timer is a whole flush |
| `ShipperSteps.AddIsSteps` | pkg/logshipper/handler.go:679-706 | An add is the protocol's steps from the entry in hand to the next round |
| `ShipperSteps.DrainIsSteps` | pkg/logshipper/handler.go:712-740 | A drain is the protocol's steps from the top of the drain to the exit of the loop, with the same result |
| `ShipperSteps.PlayExtendsRun` | pkg/logshipper/handler.go:742-762 | Steps played from the end of a run make a longer run, so the results on runs hold of them |
| `ShipperPolicy.BatchVerdict` | pkg/logshipper/handler.go:644-674 | What one flush decides about an entry of the batch, both ways and by status code: set aside unsent, or sent once and acknowledged (2xx), failed at once (4xx other than 401, 408, 429) or retained (no response, any other status) |
| `ShipperPolicy.RetryVerdict` | pkg/logshipper/handler.go:646-653 | A retained entry is resent once and then acknowledged on a 2xx and failed on anything else |
| `ShipperPolicy.AfterTwoFlushes` | pkg/logshipper/handler.go:644-674 | Of the entries given up by the second of two flushes in a row, exactly those the first did not set aside were sent twice |
| `ShipperPolicy.OnlyOneAttempt` | pkg/logshipper/handler.go:657-660 | A concrete case: an endpoint answering 503 loses an entry set aside unsent after one send |
| `ShipperPolicy.OnlyOneAttemptAtTheEnd` | pkg/logshipper/handler.go:731-737 | Another: an entry never set aside is given up after one send, because the drain's last flush failed |
| `ShipperRetry.RunExplained` | pkg/logshipper/handler.go:644-740 | In every run, what happened to an entry (batch answer, set aside, resend answer, left over) says how often it was sent and whether it is retained |
| `ShipperRetry.SendsWhenGivenUp` | pkg/logshipper/handler.go:644-740 | For every step of every run that gives an entry up, how often it had been sent: not encodable 0, rejected 1, resend failed 2 or 1 if set aside, end of the drain 1, expired context 1 if it was retained after a send and 0 otherwise |
| `ShipperRetry.SecondAttempt` | pkg/logshipper/handler.go:548-557 | In every run: an entry whose first send got no response or a status other than 2xx and a rejecting 4xx, and which is no longer retained, was sent twice if and only if its batch was not set aside and the loop did not end while it was retained |
| `ShipperProtocol.BarrierStep` | pkg/logshipper/handler.go:372-391 | Once the write lock was granted no call stands between its closing check and its push |
| `ShipperProtocol.CallStep` | pkg/logshipper/handler.go:382-465 | Each call pushes once or is counted as dropped once, never both |
| `ShipperProtocol.LoopInvStep` | pkg/logshipper/handler.go:742-762 | Every interleaved step keeps the loop invariant |
| `ShipperProtocol.QueueStep` | pkg/logshipper/handler.go:728-760 | Received entries, the one in hand and the channel cover everything pushed, in order |
| `ShipperProtocol.RunInv` | pkg/logshipper/handler.go:372-762 | All of these hold in every state of every run |
| `ShipperProtocol.NoPushAfterDone` | pkg/logshipper/handler.go:583-599 | Nothing is pushed once `done` is closed |
| `ShipperProtocol.CallsAddUp` | pkg/logshipper/handler.go:372-762 | In every state: calls that decided = dropped + pushed, and pushed entries are acknowledged, failed, held, in hand or waiting |
| `ShipperProtocol.NothingLost` | pkg/logshipper/handler.go:583-762 | After the loop exits: calls = dropped + acknowledged + failed, also when the shutdown context expired |
| `ShipperProtocol.OneFatePerCall` | pkg/logshipper/handler.go:372-762 | ... and for each call exactly one of the three happened |
| `ShipperProtocol.DeliveryGuarantees` | pkg/logshipper/handler.go:615-762 | In every state: acknowledgements in enqueue order without repetition, at most two requests per entry, none both acknowledged and failed, at most two batches held, every request within the limits |
| `ShipperProtocol.OnlyWhatWasPushed` | pkg/logshipper/handler.go:615-781 | In every state nothing is waiting, held or sent but encodings that calls pushed |
| `ShipperDecisions.WhyDropped` | pkg/logshipper/handler.go:372-465 | In every run: a call dropped its record if and only if it found a writer at the barrier, found the handler closing, or found bufferSize entries waiting; any other call's record became the last entry of the channel |
| `ShipperDecisions.EntryInHand` | pkg/logshipper/handler.go:679-697 | In every run: an entry is rejected if and only if it did not encode or its request alone would be over the limit, and the batch is flushed before it if and only if both together would be |
| `ShipperDecisions.FlushedWhenFull` | pkg/logshipper/handler.go:698-706 | In every run: appending is followed by a flush if and only if it fills the batch |
| `ShipperDecisions.NothingAfterExpiry` | pkg/logshipper/handler.go:719-727 | In every run: once the drain finds its context expired no request is sent any more, and everything left is counted as failed |
| `ShipperEntry.SetDefaults` | pkg/logshipper/handler.go:179-240 | Exactly which configurations are accepted, and the settings they give: non-empty service and host, valid UTF-8 within 128, 128 and 256 bytes, valid fields unchanged |
| `ShipperEntry.TruncateMsg` | pkg/logshipper/handler.go:473-483 | The backward loop cuts at the last rune boundary within the cap |
| `ShipperEntry.TruncatedFits` | pkg/logshipper/handler.go:473-483 | A shipped message is valid UTF-8 within 64 KB, non-empty if the record's is, and a whole-rune prefix with the marker when cut |
| `ShipperEntry.MessageCarried` | pkg/logshipper/handler.go:473-483 | A message within 65536 bytes ships whole; a longer one as the longest prefix of whole runes that leaves room for the marker |
| `ShipperEntry.ShortenSource` | pkg/logshipper/handler.go:488-498 | The forward loop keeps the longest tail that starts at a rune boundary and fits |
| `ShipperEntry.ShortenedFits` | pkg/logshipper/handler.go:488-498 | A shipped source is valid UTF-8 within 256 bytes |
| `ShipperEntry.SourceCarried` | pkg/logshipper/handler.go:488-498 | A source within 256 bytes ships whole; a longer one as the marker and the longest tail of whole runes that fits behind it |
| `ShipperEntry.EntryCarriesRecord` | pkg/logshipper/handler.go:395-456 | The entry carries the record and the settings, field by field: its time or the current one, the level name of its band, its message or "(empty)", its source, its attributes within the cap or the stub |
| `Utf8.ToValidKeeps` | pkg/logshipper/handler.go:198-202 | Replacing invalid bytes keeps every valid part as it is |
| `Utf8.ToValidReplaces` | pkg/logshipper/handler.go:198-202 | ... and turns each run of invalid bytes into one U+FFFD |
| `ShipperEntry.StubFits` | pkg/logshipper/handler.go:514-516 | The stub for over-long attributes is short, for any 64-bit size |
| `AttrTree.SetThenLookup` | pkg/logshipper/handler.go:884-917 | A write sets its own slot, and changes what another clean slot reads only if it goes to or below the place of that slot's displaced value |
| `AttrTree.ReservedCollides` | pkg/logshipper/handler.go:897-917 | Any slot with `_value` below the top level is overwritten by a write to a shorter clean slot |
| `AttrTree.ShadowHides` | pkg/logshipper/handler.go:897-917 | A write to or below a slot's displaced place takes the slot's value away |
| `AttrTree.UndisturbedIffNotShadowed` | pkg/logshipper/handler.go:884-917 | For a clean slot and any other slot: writes to the other never change what it reads if and only if they do not go to or below its displaced place |
| `AttrTree.UndisturbedIffClean` | pkg/logshipper/handler.go:897-917 | A slot survives every later write to another clean slot if and only if it is clean itself (`_value` not below the top level) |
| `AttrTree.SetKeepsGroupsFilled` | pkg/logshipper/handler.go:840-852 | No write leaves an empty group behind |
| `AttrTree.SetAttrWrites` | pkg/logshipper/handler.go:834-890 | Storing an attribute with nested and inline groups is the sequence of writes of its leaves |
| `AttrTree.UnderGroups` | pkg/logshipper/handler.go:842-852 | Attributes land under the groups they were given with |
| `AttrTree.WritesAreLeaves` | pkg/logshipper/handler.go:842-852 | Exactly the leaves of an attribute that are not dropped are written, each under the named groups around it; inline groups add no name |
| `AttrTree.RefinesFlatMap` | pkg/logshipper/handler.go:834-917 | The tree built by any writes reads, at every clean slot none of them shadows, as the last-write-wins map from slots to values |
| `AttrTree.FlatWhenClean` | pkg/logshipper/handler.go:834-917 | ... so at every slot when no user key or group below the top level is named `_value` |
| `AttrTree.NeverEmptyGroups` | pkg/logshipper/handler.go:840-852 | ... and has no empty group |
| `AttrTree.GroupStays` | pkg/logshipper/handler.go:904-917 | A group outside the reserved places is never replaced by a later write |
| `AttrTree.DisplacedValueReadable` | pkg/logshipper/handler.go:884-917 | When any write used a slot's key as a group, before or after, the value last written to the slot is in that group under `_value` |
| `AttrTree.ChainLands` | pkg/logshipper/handler.go:521-540 | Through any chain of `WithAttrs` and `WithGroup`, attributes land under the groups open at that call and not under later ones |
| `AttrTree.ShippedAttrs` | pkg/logshipper/handler.go:413-426 | What ships for a record logged through any chain, slot by slot |
| `AttrHeap.AttrGroup.Put` | pkg/logshipper/handler.go:885-889 | A store into one map changes that entry of the tree and nothing else |
| `AttrHeap.AttrGroup.Enter` | pkg/logshipper/handler.go:904-917 | One step down a group path makes the group if needed and moves a value already there into it |
| `AttrHeap.AttrGroup.Store` | pkg/logshipper/handler.go:884-917 | The nested maps stay a tree without sharing and hold the specified contents |
| `AttrHeap.AttrGroup.SetAttr` | pkg/logshipper/handler.go:834-890 | So do they after storing a whole attribute |
| `AttrHeap.BuildAttrs` | pkg/logshipper/handler.go:413-426 | The maps `Handle` builds hold exactly the writes of the inherited and the record's attributes |
| `Ingest.Judge` | api/internal/handler/applog_ingest.go:73-145 | The decision on a decoded batch: each refusal if and only if its cause, every fault of every entry reported, accepted entries unchanged but for their canonical level |
| `Ingest.Faultless` | api/internal/handler/applog_ingest.go:104-140 | An entry has no fault if and only if it meets every field limit |
| `Ingest.FaultsExact` | api/internal/handler/applog_ingest.go:104-140 | Each fault is reported if and only if its own limit is violated |
| `Ingest.BatchFaultsExact` | api/internal/handler/applog_ingest.go:101-145 | The report names exactly the faults of each entry under its position |
| `Ingest.LevelNames` | api/internal/model/applog.go:66-105 | For each canonical level, exactly the names the endpoint takes for it |
| `Ingest.LevelAgreement` | api/internal/model/applog.go:96-105 | Every slog level ships under a name the endpoint takes unchanged |
| `Ingest.CarriedUnchanged` | pkg/logshipper/handler.go:198-240 | Every string field `Handle` ships is valid UTF-8, so JSON, which turns each invalid byte into U+FFFD, carries it unchanged |
| `Ingest.UnsanitizedRefused` | pkg/logshipper/handler.go:467-474 | Without that replacement a message within the cap would be refused: it grows threefold on the way |
| `Ingest.EntryAgreement` | pkg/logshipper/handler.go:395-456 | Under any accepted configuration a record's entry, as the endpoint decodes it, has no fault, unless it carries an over-long `_encode_error` stub, and then that one |
| `Ingest.LongErrorRefused` | pkg/logshipper/handler.go:503-510 | The stub around an error text is refused if and only if the text has more than 65516 bytes |
| `ShipperEntry.ErrorStubSpelled` | pkg/logshipper/handler.go:503-510 | The bytes of the stub around an error text |
| `Ingest.StubCanBeTooLong` | pkg/logshipper/handler.go:503-510 | A record whose stub is too long |
| `Ingest.RequestsPass` | pkg/logshipper/handler.go:615-781 | In every run whose calls push the encodings of what `Handle` builds for any records, with the default limit, no request is refused for body size, emptiness or batch size, and no entry in it for a field, except over-long `_encode_error` stubs |
| `JsonEscape.ReplaceNulEscapes` | api/internal/handler/applog_ingest.go:210-221 | The in-place scan leaves what the specification says, of the same length |
| `JsonEscape.OnlyNulEscapesChange` | api/internal/handler/applog_ingest.go:206-221 | On any text with JSON escapes the tokens stay, exactly the NUL escapes become U+FFFD escapes, and none is left |
| `JsonEscape.Idempotent` | api/internal/handler/applog_ingest.go:210-221 | A second rewrite changes nothing, on any bytes |
| `Suppressor.KeyInjective` | api/internal/notification/suppressor.go:274-276 | The key determines rule and group, although a group may contain the separator |
| `Suppressor.TrimForDigest` | api/internal/notification/suppressor.go:283-295 | The retained copy is of the same event; for applog events attributes are dropped and flagged and the message is cut to 4096 bytes; unchanged where it already fits |
| `Suppressor.TimerStep` | api/internal/notification/suppressor.go:98-272 | Every step keeps: one timer per live fingerprint, of its phase and incarnation, and no other |
| `SuppressorHistory.CountStep` | api/internal/notification/suppressor.go:116-122 | Every step keeps the per-rule counters exact and both caps |
| `SuppressorHistory.Conservation` | api/internal/notification/suppressor.go:220-246 | In a well-shaped history recorded events are those reported plus those since the last emission |
| `SuppressorHistory.HistoryStep` | api/internal/notification/suppressor.go:107-255 | Every step keeps each key's history well shaped and in agreement with its fingerprint |
| `SuppressorRate.WindowGrows` | api/internal/notification/suppressor.go:240-245 | The stepwise growth of the window is the closed form, never below the smaller of base and maximum |
| `SuppressorRate.RateStep` | api/internal/notification/suppressor.go:124-249 | Every step keeps emissions of a key at least min(base, max) apart |
| `SuppressorRuns.NoStaleTimers` | api/internal/notification/suppressor.go:98-272 | In every run an outstanding timer belongs to the live incarnation of its key and to its phase, so a flush never acts on a fingerprint that was closed and created again |
| `SuppressorRuns.CapsHold` | api/internal/notification/suppressor.go:15-20 | In every run the counters are exact and both caps hold |
| `SuppressorRuns.RefusedExactlyAtCapacity` | api/internal/notification/suppressor.go:116-122 | In every run until Stop: an event for an untracked key leaves no trace if and only if 10000 keys of its rule or 50000 keys in all are live |
| `SuppressorRuns.NothingSwallowed` | api/internal/notification/suppressor.go:107-255 | Until Stop, what a key's history records are its accepted events in order with their times, and their number = events its emissions reported + pending; one alert with the first event, then digests with the last event of their own window, each reporting at least one |
| `SuppressorRuns.NotificationRate` | api/internal/notification/suppressor.go:124-249 | At most 1 + T / min(base, max) notifications of a key in any span T, across close and reopen; digests report windows of base, then min((n+1)·base, max) |
| `SuppressorTiming.TimersAreExact` | api/internal/notification/suppressor.go:133-153 | In every run a fingerprint's timer is due exactly its coalesce window after the first event, or its current silence after its last emission |
| `SuppressorTiming.AlertsCoalesce` | api/internal/notification/suppressor.go:133-145 | An alert is decided no earlier than the coalesce window after the first event it reports, and at the time of that event when there is none |
| `SuppressorTiming.HistoryGrows` | api/internal/notification/suppressor.go:107-256 | A step's marks carry its own time; an event leaves a record of itself, alone or with the alert at once |
| `SuppressorObject.Monitor.Record` | api/internal/notification/suppressor.go:98-170 | The fields after Record are those of the transition; it hands out an alert exactly for an untracked key without coalescing while fewer than 10000 keys of its rule and 50000 in all are live |
| `SuppressorObject.Monitor.FlushInitial` | api/internal/notification/suppressor.go:174-203 | So for the end of a coalesce window, which emits whenever the fingerprint is still there |
| `SuppressorObject.Monitor.FlushSilence` | api/internal/notification/suppressor.go:208-256 | So for the end of a silence window, which emits exactly when events accumulated |
| `SuppressorObject.Monitor.StopLocked` | api/internal/notification/suppressor.go:259-269 | The loop in Stop cancels exactly the timers that have not fired and forgets every fingerprint |
| `EngineShutdown.NoSendAfterClose` | api/internal/notification/engine.go:137-143 | In every interleaving nothing is sent on the closed dispatch channel and no callback runs once Stop has returned |
| `EngineShutdown.DropsOnlyWhenFull` | api/internal/notification/engine.go:376-383 | In every run a callback's job goes to the end of the queue unless the queue is full, and is counted as dropped exactly then; jobs handed over are queued, worked on or dropped |
| `ClientCounts.IncExact` | api/internal/broker/broker.go:100-124 | Counting a new subscription keeps one entry per connected client, with its exact number |
| `ClientCounts.DecExact` | api/internal/broker/broker.go:143-152 | So does removing one; an entry that would be zero disappears |
| `Broker.ConnectionStep` | api/internal/broker/broker.go:100-198 | Every step keeps exact counts, both limits, one close per channel, and no send after it |
| `Broker.DeliveryStep` | api/internal/broker/broker.go:174-198 | Every step keeps: each matching broadcast offered at most once, and none missed while open |
| `Broker.ConnectionsSafe` | api/internal/broker/broker.go:100-172 | In every run: counts exact and within 20 per client and 1000 in all, channels closed at most once and never sent to after |
| `Broker.DeliveriesAddUp` | api/internal/broker/broker.go:174-198 | In every run, per open subscription: matching broadcasts = consumed + queued + dropped, queue at most 512 |
| `BrokerOrder.FirstInFirstOut` | api/internal/broker/broker.go:174-198 | In every run, what a subscription received and what is queued for it are the matching messages offered while fewer than 512 were queued, in the order of the offers; what was dropped for it are the others |
| `BrokerOrder.RefusedExactlyAtLimits` | api/internal/broker/broker.go:100-124 | In every run a subscription is refused if and only if 1000 are live or 20 of the same non-empty client key |
| `BrokerObject.Broker.Subscribe` | api/internal/broker/broker.go:100-124 | Refusals exactly at the two limits, otherwise one more subscription; either way the subscribe step of the interleaved machine |
| `BrokerObject.Broker.Unsubscribe` | api/internal/broker/broker.go:127-140 | The unsubscribe step: removes and closes once; a second call or one after Shutdown changes nothing |
| `BrokerObject.Broker.Shutdown` | api/internal/broker/broker.go:162-172 | The shutdown step: every subscription is closed and removed, queued messages stay readable |
| `Broker.BroadcastPlayed` | api/internal/broker/broker.go:174-198 | A broadcast that nothing interrupts comes to the same in whatever order it reaches the subscribers |
| `BrokerObject.Broker.Broadcast` | api/internal/broker/broker.go:174-198 | The machine's broadcast from beginning to end, one offer per subscriber in any order; the drop count grows by the number of matching subscribers without room |
| `SseStream.Backfill` | api/internal/handler/sse_stream.go:188-243 | Rows are written oldest first up to the first failed write; the returned mark is the newest row exactly when all were got through |
| `SseStream.BackfillWithinMark` | api/internal/handler/sse_stream.go:188-243 | What backfill writes is ascending, within the newest row, and after the client's position on resume |
| `SseStream.StepsLikeBackfill` | api/internal/handler/sse_stream.go:203-211 | The interleaved row steps do what one turn of the backfill loops does |
| `SseStream.RunInv` | api/internal/handler/sse_stream.go:133-180 | In every run the live part is what was received above the mark, in order, and nothing is received before the backfill is over |
| `SseStream.NothingTwice` | api/internal/handler/sse_stream.go:133-243 | In every interleaving with distinct ids, the ids written before the first failed write are pairwise distinct and on resume lie after the client's position |
| `SseStream.NothingMissed` | api/internal/handler/sse_stream.go:133-180 | While the stream is open every matching event since the subscription above the mark, and every one newer than the client's position and the backfilled rows, is about to be offered, written, buffered or counted as dropped; only such events are written; the mark is the newest row, or the client's position when there were none or a write failed |
| `SseStream.OwnSubscription` | api/internal/handler/sse_stream.go:133-139 | In every run an open connection holds the subscription it asked for, with its filter and key, and sees what is broadcast from then on |
| `Utf8.StartsRune` | api/internal/model/srvlog.go:181-184 | Self-synchronization: in any bytes, a byte that is no continuation starts a rune |
| `Utf8.StrayRune` | api/internal/model/srvlog.go:181-184 | A rune starting at a continuation byte is U+FFFD, and there is none in valid UTF-8 |
| `Utf8.RoundTrip` | api/internal/model/srvlog.go:173-177 | Encoding scalar values and decoding them gives them back, as valid UTF-8 |
| `Utf8.EncodeRunes` | api/internal/model/srvlog.go:173-177 | Decoding valid UTF-8 and encoding the runes gives the bytes back |
| `Utf8.LoweredRunes` | api/internal/model/srvlog.go:141-142 | The lowercased string is the encoding of the lowercased runes and valid UTF-8, whatever the input |
| `FoldSearch.HasPrefixFold` | api/internal/model/srvlog.go:193-211 | True if and only if the text's lowercased runes begin with the prefix's runes |
| `FoldSearch.ContainsFold` | api/internal/model/srvlog.go:177-190 | True if and only if some byte that is no continuation starts such a prefix |
| `FoldSearch.FoundIsThere` | api/internal/model/srvlog.go:177-190 | On any bytes, a reported occurrence is one |
| `FoldSearch.OccursIsContained` | api/internal/model/srvlog.go:173-177 | For a valid needle: its runes occur in the lowercased runes if and only if its bytes are contained in the lowercased string |
| `FoldSearch.LoweredIsLowercase` | api/internal/model/srvlog.go:216-221 | What lowercasing produces is a valid lowercase needle |
| `FoldSearch.ExactOnValidUtf8` | api/internal/model/srvlog.go:177-190 | On valid UTF-8 the byte scan finds the needle if and only if its runes occur contiguously in the lowercased runes, and if and only if the lowercased string contains it |
| `FoldSearch.ExactForNeedle` | api/internal/model/srvlog.go:173-190 | For a lowercase needle: the scan agrees with containment in the lowercased string on every byte string if and only if the needle is empty or does not begin with U+FFFD |
| `FoldSearch.MissedAtStrayByte` | api/internal/model/srvlog.go:181-184 | For every other needle, the text in which it is missed |
| `Glob.GreedyStep` | api/internal/model/srvlog.go:148-156 | Taking the first occurrence of a segment loses no match while another star follows |
| `Glob.LastPart` | api/internal/model/srvlog.go:158-161 | The last segment fits if and only if what is left ends with it, so it never overlaps earlier ones |
| `Glob.MatchParts` | api/internal/model/srvlog.go:143-162 | The single pass decides whether the segments can be placed |
| `Glob.SplitMeaning` | api/internal/model/srvlog.go:142-142 | Placing the segments is filling each star with some string |
| `Glob.MatchWildcard` | api/internal/model/srvlog.go:134-163 | For every value and every pattern with a star: true if and only if some filling of the stars makes the lowercased pattern the lowercased value |
| `Glob.MatchField` | api/internal/model/srvlog.go:166-171 | Globs with a star, equality without |
| `Decimal.RoundTrip` | api/internal/model/srvlog.go:267-285 | Printing and parsing any 64-bit integer gives it back, the smallest included |
| `Decimal.ParseExact` | api/internal/model/srvlog.go:281-288 | Parsing accepts exactly an optional sign and digits within 64 bits, for the number they spell |
| `Decimal.Printed` | api/internal/model/srvlog.go:267-267 | Some numbers as they are printed |
| `Base64Url.RoundTrip` | api/internal/model/srvlog.go:268-273 | Padded base64url decoding undoes encoding, for any bytes |
| `Base64Url.DecodesExactlyText` | api/internal/model/srvlog.go:273-276 | Decoding succeeds on exactly the texts of whole groups of four symbols with padding only at the end, line breaks aside |
| `Base64Url.Vectors` | api/internal/model/srvlog.go:268-273 | Vectors of section 10 of RFC 4648 |
| `Base64Url.UrlSymbols` | api/internal/model/srvlog.go:268-273 | The two symbols that set the URL alphabet apart |
| `Cursors.CursorRoundTrip` | api/internal/model/srvlog.go:266-293 | Every cursor of 64-bit nanoseconds and id survives encode and decode |
| `Cursors.DecodesExactly` | api/internal/model/srvlog.go:272-293 | A text decodes to a cursor if and only if it is base64url over two 64-bit decimals, separated by a comma, that spell it |
| `Cursors.Encoded` | api/internal/model/srvlog.go:266-269 | A cursor as it is encoded: the timestamp first, then the id |
| `MuteSet.SortedCopy` | api/internal/mute/set.go:48-54 | The copy is sorted by id and holds the same rules |
| `MuteSet.Match` | api/internal/mute/set.go:144-153 | The scan returns the first rule that hits |
| `MuteSet.Exclusions` | api/internal/mute/set.go:157-165 | The scan collects the active rules' filters in order |
| `MuteSet.FiltersInOrder` | api/internal/mute/set.go:155-165 | The exclusions are the filters of exactly the unexpired rules of the feed, one each, in the order of the rules |
| `MuteSet.FirstHitMeaning` | api/internal/mute/set.go:112-153 | An answer if and only if some rule is of the event's feed, unexpired and matching; then the id of such a rule with none before it |
| `MuteSet.MarkedIffExcluded` | api/internal/mute/set.go:105-165 | On one snapshot an event is marked if and only if some exclusion filter matches it |
| `MuteSet.CacheAgrees` | api/internal/mute/set.go:112-153 | The cache loaded at one time gives, at every later time, the lowest id in the whole table of a rule of the feed that is unexpired and matches, if any |
| `MuteSet.ExclusionsAgree` | api/internal/mute/set.go:155-165 | ... and as exclusions the filters of exactly the unexpired rules of the feed in the whole table |
| `MuteSet.Set.Replace` | api/internal/mute/set.go:48-54 | The rules become the sorted copy |
| `MuteSet.Set.Reload` | api/internal/mute/set.go:58-67 | A failed listing keeps the current rules |
| `MuteSet.Set.MatchEvent` | api/internal/mute/set.go:90-103 | One event is matched on a snapshot of the current rules and clock |
| `MuteReload.RunInv` | api/internal/mute/set.go:58-67 | In every interleaving of reloads, writes and time the cache is the sorted listing of one version of the table |
| `MuteReload.NeverBackwards` | api/internal/mute/set.go:36-67 | No reload installs an older version of the table over a newer one |
| `MuteReload.WriteVisibleAfterReload` | api/internal/mute/set.go:56-67 | Once a reload asked for after a write has succeeded, the cache answers from that version or a newer one, for good |
| `MuteReload.SnapshotAgrees` | api/internal/mute/set.go:90-165 | A snapshot matches and excludes as the whole table of the loaded version, which is the current table until the next write |

## Left out

- HTTP, TLS, headers and timeouts in `send`: a send is one of the answers the code distinguishes; JSON encodings are opaque bytes.
- Prometheus metrics, logging, tickers and the refresh loops around them: only the counters a conservation law needs are kept.
- Circuit breakers, rate limiters, backends and retries of notification delivery; whether queued notifications are delivered after shutdown.
- A second call of the engine's `Shutdown`, which would close the dispatch channel again.
- Panics in user callbacks (`Redact`, `LogValuer`) inside `Handle`.
- Overflow of 64-bit durations in the suppressor's windows: times are unbounded integers.
- The Unicode case tables: lowercasing is an arbitrary rune-to-rune function, with `*` and U+FFFD fixed where that matters; `strings.EqualFold` is arbitrary too.
- Postgres and SQL: the order of backfill rows and the contents of the mute listing are hypotheses, as the stores document them.
- Event filters other than the glob and the substring search: matching an event is a parameter of the broker and the mute cache.
- Gap-free SSE resume: backfill is capped and ids may arrive out of order, so nothing is claimed about ids at or below the mark.
- What a stream repeats after a failed backfill write: the code goes on with the old mark.
- The sharing of slices between derived handlers (`slices.Clip`): `WithAttrs` and `WithGroup` are modelled on values.
- The conversion of a single attribute value (durations, errors, stringers, redaction, truncation): an arbitrary function of key and value.
- Memory order and fairness: steps are atomic and nothing is claimed about when they happen.
- `replaceNUL`, `resolveSourceIP`, CRUD handlers, authentication, configuration, the command line, the analyzer and the web interface.
- `Ingest.RequestsPass`: supposes of encoding/json, which is not modelled, that an entry it can encode comes back with each invalid byte of a string field as U+FFFD and otherwise as it was; a run's over-long `_encode_error` stubs are refused.
- `AttrHeap.AttrGroup.Store`: walks the group path by recursion where the code has a loop.
