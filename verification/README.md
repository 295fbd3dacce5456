# star1ight-agent: accounting and control plane

A Dafny model of the part of the agent that counts, reports, limits and reconciles, and
proofs of what it promises. `dafny verify dfyconfig.toml` checks all of it.

| file | what it models |
|---|---|
| `SessionProtocol.dfy` | the two closures of a prepared session, as a state machine: one program counter per call, any number of calls, every atomic operation and lock step on its own |
| `RefCounts.dfy`, `SessionTracker.dfy` | the nested reference counts of devices and sources: the functions and their meaning over runs, and the tracker object that updates the maps in place |
| `Sorting.dfy`, `Alive.dfy`, `Presence.dfy` | the presence report: sorted snapshots, the difference and its commit, and runs with failing pushes |
| `Ledger.dfy`, `LedgerCycles.dfy`, `Counter.dfy` | traffic from counting to commit: a state machine over runs in which every load, check, delete and commit is a step of its own, what one cycle of the syncer brings about, and the counter objects with their loops |
| `Delivery.dfy`, `ConfiguredChain.dfy`, `Panels.dfy`, `FlushRuns.dfy`, `Sums.dfy` | the chain of panels: who receives what under a configuration, filter, route, sum per user, push, the conservation law over the chain, and runs of flushes of which some fail |
| `AliveDelivery.dfy` | presence reports on the same way: what routing may overwrite, and what a client collects |
| `SourceClassifier.dfy`, `SourceTag.dfy` | source labels: parsing, classifying, and the `@source=` suffix printed and split again |
| `Int64.dfy`, `TokenBucket.dfy`, `RateChanges.dfy`, `RateLimiter.dfy` | rates and bursts in 64 bits, the token bucket over the reals with the byte bound of one limiter, what becomes of the bound when the rate is lowered or the bucket dropped, and the limiter and write loop |
| `InboundTables.dfy`, `Inbounds.dfy`, `TableRuns.dfy`, `ListRuns.dfy`, `UserManager.dfy`, `UserList.dfy`, `Syncer.dfy` | the user list: merging what panels send, the difference to the old list, the three kinds of inbound tables, runs of lists of which some fail, limiter pairs, retries, and the counters that may go afterwards |
| `CustomRouting.dfy`, `RoutingResult.dfy` | the merge of custom outbounds, route rules, raw routes, DNS settings and route options, and what it puts out item by item |
| `Text.dfy`, `Sequences.dfy` | trimming, splitting, lower case, decimal numbers; sums and steps of sequences |

Loops that the agent runs over a map are loops over its keys in any order, so no result
depends on the order. A push, a fetch, an inbound operation or a write on the underlying
connection is a parameter that says whether, and after how much, it fails. The clock of the
limiter and the moment at which another goroutine acts are events of the run.

## What the proofs found

- **Threshold.** The documentation says that a session counts as online after more than
  32 KiB; the code compares with `<` and opens at exactly 32768 bytes. The model follows the
  code (`SessionProtocol.OpenIffThresholdReached`).
- **Stale clock readings.** Callers read the clock before they take the bucket's lock. That
  the bytes written stay within rate times elapsed time is true in every run exactly when no
  operation gets the lock after one that read the clock later (`RateBound.BoundIffInOrder`):
  any lateness at all, at any rate, lets too much through. With the accumulated drift added
  it holds in general (`RateBound.BytesWithinRate`).
- **Lowered rates.** What was granted at a higher rate still passes after the rate was
  lowered, so the burst and what the lower rate earns can be exceeded
  (`RateChanges.LoweringLetsGrantsPass`). From any moment at which nobody waits for the lock
  that bound holds in all runs in order exactly when the chunks that still wait come due no
  faster, and fit into the burst together with the tokens (`RateChanges.LoweredRateIff`);
  once nothing waits it always does (`RateChanges.NothingWaitsFits`).
- **Dropped buckets.** Disabling or closing a limiter drops its bucket, and the next rate
  starts a new one while the chunks of the old one still pass
  (`RateChanges.ReopeningLetsGrantsPass`). Over all buckets of a limiter the bound holds with
  the debts of the dropped ones added (`RateChanges.BytesOverBuckets`).
- **Overflow.** The 64-bit burst product is right exactly up to 46116860184 bytes per second,
  which is 368934 Mbps (`Int64.BurstIsAFifth`, `Int64.BurstOfMbps`).
- **Numbers with leading zeros.** Two numeric keys that denote one number overwrite each other
  in a payload; payloads are faithful exactly when this does not happen and every key fits a
  machine integer (`Panels.PayloadFaithfulIff`, `Panels.LeadingZeroLoses`). Over the whole
  chain every byte of a number is accounted for, whatever the panels receive, exactly when
  each panel gets the number's bytes under one key (`Panels.AccountedIff`), as it does when
  users are known by the printed ids of the list (`Panels.PrintedIdsAreAlone`).
- **Presence that overwrites.** When two source labels lead to one panel and base tag, the
  report of one overwrites that of the other, so that a tombstone can hide live addresses
  (`AliveDelivery.TombstoneHides`). Everything arrives in every order of the tags exactly when
  no two of them give one user different addresses there (`AliveDelivery.AllArrivesIff`).
- **Addresses that did not change.** A presence request carries differences only, so a client
  that matches two tags reports only the addresses of the tag that changed
  (`AliveDelivery.SecondTagHidesFirst`). It lists all live addresses of a user exactly when
  every address on an unchanged tag is on a changed one too
  (`AliveDelivery.RequestIsCompleteIff`).
- **Markers without labels.** An inbound tag that contains `@source=` itself survives when a
  source label is appended, but not when none is (`SourceTag.UnlabelledRoundTrip`).
- **Shared UUIDs and passwords.** When two users share a UUID and one of them leaves, the other
  loses its row in the VLESS table (`InboundTables.SharedUuidIsLost`);
  `InboundTables.VlessAgreesIff` is the exact condition. Of two users with one password only
  one has a row in the Hysteria2 table (`InboundTables.SharedPasswordIsLost`), which agrees
  exactly when the new passwords are distinct. Shadowsocks tables need nothing.
- **Rows of failed lists.** When a list fails after an inbound took a user and the next list
  lacks that user, its row stays (`UserManager.RowOutlivesUser`). After any run of failed
  lists and a success a table agrees exactly when every key that the list does not touch was
  restored by the last list that touched it, unchanged users are spared and no two users claim
  one key (`TableRuns.AgreementOverRun`; `InboundTables.AgreementAfterFailures` says it of any
  leftovers, also those of an operation that failed half-way).
- **Limiters that outlive their users.** When a list fails at an inbound and the next list
  lacks one of its new users, that user's limiter pair stays open
  (`UserManager.LimiterOutlivesUser`) until a later list names the id without a speed, or
  names it, succeeds, and is followed by one that lacks it. Over any run of lists
  `ListRuns.LeftByFailure` and `ListRuns.InStepIff` are the exact conditions.
- **Case of tags.** Route rules are checked against outbound tags without regard to case, but
  the emitted target keeps its case (`CustomRouting.CaseIsNotChecked`). Every target exists as
  it stands exactly when every active routing rule was written with the very tag of an
  outbound that is emitted, or with a built-in one (`CustomRouting.TargetsExistIff`).

## Model

| member | source | states |
|---|---|---|
| SessionProtocol.OpenedAtMostOnce | cmd/star1ight-agent/session_tracker.go:164-209 | in every interleaving of any number of `activate` and `closePending` calls a session is opened at most once and released at most as often as opened |
| SessionProtocol.ClosedForGood | cmd/star1ight-agent/session_tracker.go:193-207 | once the close that won the swap has returned, opens equal releases, and no later run of any calls opens the session again |
| SessionProtocol.OpenIffThresholdReached | cmd/star1ight-agent/session_tracker.go:172-192 | with no close begun and all activations returned, the session is open iff the positive byte counts passed sum to at least 32768, although some calls skip the accumulator |
| SessionProtocol.AloneReturns | cmd/star1ight-agent/session_tracker.go:164-209 | a call that is left alone returns, with no other call moved |
| SessionProtocol.OneActivationOpensIff | cmd/star1ight-agent/session_tracker.go:172-192 | a run exists in which one activation returns, and it opens the session iff its bytes reach 32768 |
| SessionProtocol.OneCloseReleases | cmd/star1ight-agent/session_tracker.go:193-207 | and one in which the first close after it releases the session |
| SessionProtocol.SomeCallCanStep | cmd/star1ight-agent/session_tracker.go:164-209 | no interleaving deadlocks: while a call has not returned, some call can step |
| SessionProtocol.ReachableInv | cmd/star1ight-agent/session_tracker.go:164-209 | every reachable state keeps mutual exclusion, one winner of the swap, and the books that tie opens to the release that is stored, taken or invoked |
| RefCounts.IncrementCounts | cmd/star1ight-agent/session_tracker.go:130-155 | a reference adds one to the count of its inbound, user and key and to no other count |
| RefCounts.DecrementCounts | cmd/star1ight-agent/session_tracker.go:211-251 | dropping a reference, whatever the count was, takes one from a positive count, makes any other one zero, and leaves the counts of all other keys |
| RefCounts.DecrementStaysCompact | cmd/star1ight-agent/session_tracker.go:211-251 | dropping a reference leaves only positive counts and no empty inner map |
| RefCounts.CountsAreLiveSessions | cmd/star1ight-agent/session_tracker.go:119-162 | after any run of opens and releases, repeated releases included, every stored count is the number of live sessions under its key, in both indexes, and both stay compact |
| RefCounts.OpenCounts | cmd/star1ight-agent/session_tracker.go:119-162 | an open counts its peer's address and bucket once more under its user on its normalised inbound, and nothing else |
| RefCounts.ReleaseEnds | cmd/star1ight-agent/session_tracker.go:157-161 | a release ends its session and no other |
| RefCounts.IndexesAgree | cmd/star1ight-agent/session_tracker.go:119-162 | for each inbound and user the device references and the source references have the same total in every reachable state |
| SessionTracker.Tracker.Open | cmd/star1ight-agent/session_tracker.go:119-162 | the tracker's maps after an open are those of the step function, an unnamed user is ignored, and the release belongs to exactly this session |
| SessionTracker.Tracker.Close | cmd/star1ight-agent/session_tracker.go:211-251 | both indexes lose the session's reference, or none when there is no user |
| SessionTracker.Releaser.Release | cmd/star1ight-agent/session_tracker.go:157-161 | releasing drops the references the first time and does nothing afterwards |
| SessionTracker.AddReference | cmd/star1ight-agent/session_tracker.go:130-155 | making the missing inner maps and adding one gives the incremented index |
| SessionTracker.DropReference | cmd/star1ight-agent/session_tracker.go:211-251 | decrementing and deleting what becomes empty gives the decremented index |
| SessionTracker.Tracker.DevicesSnapshot | cmd/star1ight-agent/session_tracker.go:253-273 | the report built in any order of the maps is the sorted snapshot of the device index |
| SessionTracker.Tracker.AliveDelta | cmd/star1ight-agent/session_tracker.go:275-314 | the two passes over current and last report give the difference between the last acknowledged report and the snapshot |
| SessionTracker.Tracker.CommitAlive | cmd/star1ight-agent/session_tracker.go:316-344 | the last report becomes the one patched with the payload |
| SessionTracker.ListPeers | cmd/star1ight-agent/session_tracker.go:262-268 | collecting a map's keys in any order and sorting them gives the one sorted listing |
| SessionTracker.ReportAllVanished | cmd/star1ight-agent/session_tracker.go:297-312 | the second pass adds the tombstones and nothing else, row by row |
| Sorting.SortedUnique | cmd/star1ight-agent/session_tracker.go:262-268 | sorted slices with the same contents are equal, so the order of the map leaves no trace |
| Sorting.LessIff | cmd/star1ight-agent/session_tracker.go:262-268 | the order is that of a dictionary: a proper prefix first, otherwise the first characters that differ decide |
| Sorting.SortGivesListing | cmd/star1ight-agent/session_tracker.go:262-268 | sorting any enumeration of a set of keys gives its listing |
| Alive.SnapshotLists | cmd/star1ight-agent/session_tracker.go:253-273 | a snapshot lists an address for a user iff a reference to it is held |
| Alive.CommitDelta | cmd/star1ight-agent/session_tracker.go:275-344 | committing the difference turns any well-formed last report into the snapshot |
| Alive.PayloadReplaces | cmd/star1ight-agent/session_tracker.go:316-344 | whatever the payload, a commit replaces the addresses of the users it mentions, sorted, clears an inbound mentioned without users and keeps the rest |
| Alive.NothingAfterCommit | cmd/star1ight-agent/session_tracker.go:275-344 | right after a commit the difference is empty |
| Alive.DeltaIsExact | cmd/star1ight-agent/session_tracker.go:275-314 | the difference mentions a pair iff its addresses changed, with the new ones, and as a tombstone iff the pair vanished |
| Presence.PanelShowsLastAlive | panelapi/sync.go:55-68 | with any pattern of opens, closes and failed pushes the panel shows what the tracker believes was acknowledged |
| Presence.AcceptedPushShowsLiveSessions | panelapi/sync.go:55-68 | an accepted push makes the panel list an address iff a session from it was live when the snapshot was taken, whatever happened since, and the commit records that snapshot |
| Presence.NothingToPushMeansUpToDate | panelapi/sync.go:55-68 | when the difference is empty the panel already lists exactly the live sessions of that moment |
| Presence.CycleShowsDevices | panelapi/sync.go:55-68 | from an idle syncer an undisturbed cycle makes the panel list an address iff a session from it is live |
| Presence.OpenIsShown | panelapi/sync.go:55-68 | a session that opens is shown after the next cycle, under its normalised inbound and peer address |
| Presence.FailedPushChangesNothing | panelapi/sync.go:63-66 | a failed push leaves the view and the acknowledged report as they were and the syncer idle |
| AliveDelivery.RouteAlive | panelapi/source_map.go:119-137 | the loop leaves what its tags make in some order, each copied over what its panel and base tag have |
| AliveDelivery.RoutedUser | panelapi/source_map.go:119-137 | in every order a user is in a panel's row iff some tag that leads there has it, with the addresses one of these tags gives |
| AliveDelivery.AnyTagCanStay | panelapi/source_map.go:119-137 | whichever tag gives a user addresses, an order of all tags that ends in it leaves exactly these |
| AliveDelivery.AllArrivesIff | panelapi/source_map.go:119-137 | every order brings everything to the panels iff tags with one panel and base tag agree about each user |
| AliveDelivery.TombstoneHides | panelapi/source_map.go:119-137 | there is an order of the tags in which the tombstone of one source hides the addresses another source has |
| AliveDelivery.CollectPeers | panelapi/client.go:212-237 | a client reports exactly the numeric users of the tags it matches, each with all non-blank addresses these list |
| AliveDelivery.RequestIsCompleteIff | panelapi/client.go:212-237 | for a difference, a client lists no dead address of a user, and all live ones on its tags iff every address on an unchanged tag is on a changed one |
| AliveDelivery.UnchangedTagIsLeftOut | panelapi/client.go:212-237 | an address that only an unchanged tag has is left out when another matched tag changed |
| AliveDelivery.SecondTagHidesFirst | panelapi/client.go:212-237 | the failing case of a user that comes to a second tag |
| AliveDelivery.AddTag | panelapi/client.go:218-236 | one tag adds its numeric users and their non-blank addresses to what is there |
| SourceClassifier.ParseSourceBuckets | cmd/star1ight-agent/session_tracker.go:26-59 | accepts iff every specification that is not blank has a label, some prefix and nothing that is none, and then gives exactly their rules in their order |
| SourceClassifier.ParsePrefixList | cmd/star1ight-agent/session_tracker.go:42-52 | accepts iff every candidate that is not blank parses, and then gives exactly their prefixes in their order |
| SourceClassifier.AcceptedRulesAreClean | cmd/star1ight-agent/session_tracker.go:30-57 | an accepted label is never empty and never contains `=`, and its rule has a prefix |
| SourceClassifier.ClassificationIsClean | cmd/star1ight-agent/session_tracker.go:80-100 | a bucket is empty iff the peer address is, and otherwise a clean label or the address itself |
| SourceClassifier.ClassifyIsFirst | cmd/star1ight-agent/session_tracker.go:80-100 | the bucket of an address is the label of the first rule with a prefix that contains it, and the address when no rule has one |
| SourceClassifier.ClassifiedAsAddressIff | cmd/star1ight-agent/session_tracker.go:80-100 | it is the address iff no rule contains it or the first one that does has the address for its label |
| SourceClassifier.UnclassifiedIsAddress | cmd/star1ight-agent/session_tracker.go:80-91 | without a classifier, or as no address, a peer is counted as itself |
| SourceClassifier.PortIsDropped | cmd/star1ight-agent/session_tracker.go:373-388 | a peer with a port is the same as its host alone |
| SourceClassifier.FormsAgree | cmd/star1ight-agent/session_tracker.go:373-388 | all forms of one address are the same peer |
| SourceTag.PrintedIs | cmd/star1ight-agent/main.go:158-170 | a label is printed behind `@source=` on the normalised inbound |
| SourceTag.LabelledRoundTrip | panelapi/source_map.go:149-159 | splitting a printed `inbound@source=label` returns the normalised inbound and the label, even when the inbound contains the marker |
| SourceTag.LabelledTagsDiffer | cmd/star1ight-agent/main.go:158-170 | two labelled connections share a tag only if they share inbound and label |
| SourceTag.HookTagRoundTrip | cmd/star1ight-agent/main.go:158-170 | for every peer counted under a bucket the panel chain reads back exactly that bucket |
| SourceTag.HookTagLabel | cmd/star1ight-agent/main.go:158-170 | a tag is labelled iff source traffic is on, there is a classifier and the bucket is not the address, and then with the bucket |
| SourceTag.NormalizeIs | cmd/star1ight-agent/main.go:159-161 | exactly the inbound tags of white space become `default` |
| SourceTag.UnlabelledRoundTrip | cmd/star1ight-agent/main.go:158-170 | a tag printed without a label survives splitting iff the inbound does not contain the marker |
| Ledger.LedgerBalances | panelapi/sync.go:70-98 | over every interleaving of counting, registration, removal and sync cycles with failing pushes: counted = carried by accepted pushes + outstanding + detached, neither negative |
| Ledger.CommittedIsAccepted | panelapi/sync.go:93-97 | outside a commit, what is committed is exactly what accepted pushes carried: nothing lost, nothing twice |
| Ledger.UnresolvedIsNeverDelivered | panelapi/sync.go:116-142 | bytes of a user that is not a numeric id are never delivered |
| Ledger.OnlyLateBytesDetach | counter/counter.go:73-84 | bytes become detached only by counting on a removed storage, or by a delete that comes after counting followed its check |
| LedgerCycles.CycleDelivers | panelapi/sync.go:70-98 | after a cycle in which a numeric user's key was read and no push failed, everything counted for it when the cycle began was delivered, in both directions, but for detached bytes, whatever was counted or registered meanwhile |
| LedgerCycles.SomeCycle | panelapi/sync.go:70-98 | from every reachable state with an idle syncer there is such a cycle for every key |
| LedgerCycles.FailedPushChangesNothing | panelapi/sync.go:92-97 | a failed push leaves everything as it was and the syncer idle |
| LedgerCycles.ActiveStays | counter/counter.go:72-83 | a removal keeps the counters of the users it was told are active |
| LedgerCycles.OwingIsNotDeleted | counter/counter.go:72-83 | a key that owes something when it is checked is not deleted |
| LedgerCycles.AbsentGoes | counter/counter.go:72-83 | a key that is checked while its user is not active and owes nothing is gone after its delete |
| LedgerCycles.CountingAdds | counter/counter.go:100-118 | counting adds the bytes to the key of the storage in the one direction |
| LedgerCycles.RegisteringRegisters | counter/counter.go:31-38 | a key without a storage gets one of its own, and one that has keeps it |
| Ledger.ReachableInv | counter/counter.go:47-84 | every reachable state backs the delta in flight by owed bytes of registered storages and balances for each key |
| Counter.ConnCounter.CountUp | counter/counter.go:100-108 | a positive byte count is told to the session, if there is a callback, and added to the user's storage; others are ignored; what the session was told sums to what was counted |
| Counter.ConnCounter.CountDown | counter/counter.go:110-118 | the same for bytes down |
| Counter.TrafficCounter.GetCounter | counter/counter.go:28-35 | the storage of a user is the one registered, or a fresh empty one that changes no other |
| Counter.TrafficCounter.SnapshotDelta | counter/counter.go:47-59 | lists exactly the users who owe something, with what they owe |
| Counter.TrafficCounter.CommitSnapshot | counter/counter.go:63-71 | every registered user's committed counters grow by its part of the snapshot, once, and nothing else changes |
| Counter.TrafficCounter.RemoveAbsent | counter/counter.go:73-84 | exactly the users stay who are active or owe something; storages are not touched |
| Counter.Hook.Tc | cmd/star1ight-agent/main.go:62-71 | one counter per tag, with the empty tag standing for `default` |
| Counter.Hook.SnapshotDelta | cmd/star1ight-agent/main.go:115-124 | what every registered user owes on every tag, without empty tags |
| Counter.Hook.CommitSnapshot | cmd/star1ight-agent/main.go:126-131 | commits each tag's part, skipping unknown tags, and nothing else |
| Counter.Hook.RemoveAbsent | cmd/star1ight-agent/main.go:133-138 | removes absent users from every tag |
| Counter.CommitDelta | panelapi/sync.go:116-130 | keeps exactly the numeric users, and no tag without any |
| Counter.HasTraffic | panelapi/sync.go:78-92 | whether a delta has a numeric user at all |
| Counter.Flush | panelapi/sync.go:70-98 | commits for every registered numeric user exactly what it owed at the snapshot, and nothing at all when the push fails |
| Delivery.FilterTraffic | panelapi/source_filter.go:42-54 | keeps exactly the tags that are not dropped, unchanged |
| Delivery.RouteTraffic | panelapi/source_map.go:96-117 | the row of each panel and base tag exists iff some tag leads to it, lists the users of those tags, and sums them, in any order |
| Delivery.AddUsers | panelapi/source_map.go:109-114 | adds every user's usage to the total once and leaves the others |
| Delivery.LabelDecides | panelapi/source_map.go:139-147 | a labelled tag is dropped iff its label is, and otherwise its inbound goes to the label's panel, or to the default one |
| ConfiguredChain.DirectIgnoresLabels | panelapi/client.go:145-156 | without a source map no client of a named node type reports a labelled tag |
| ConfiguredChain.InboundIsDeliveredIff | panelapi/client.go:145-156 | a connection that is not dropped and routed to a panel is delivered there iff the panel's node type, in lower case, is a name of its inbound, or a type without a name that its base tag contains; labels make no difference |
| ConfiguredChain.NamedInboundIsDeliveredIff | panelapi/client.go:145-156 | among node types with names, exactly those of `vless-in`, `hy2-in` or `ss-in` receive the connections on it |
| ConfiguredChain.DeliveredOnlyThere | panelapi/source_map.go:139-147 | what is dropped, or routed to another panel, is not delivered to a panel |
| ConfiguredChain.DirectReportsIff | panelapi/client.go:145-156 | without a source map a client reports a printed tag iff its label is not dropped and its node type reports the tag as it is printed |
| ConfiguredChain.DirectDeliversIff | panelapi/source_filter.go:20-29 | a source filter over one client delivers to that client alone |
| Panels.Flatten | panelapi/client.go:158-174 | sums, per numeric user, exactly the tags that match the node, in any order |
| Panels.MakePayload | panelapi/client.go:182-189 | one entry per number that a fitting key denotes, with the usage of such a key |
| Panels.PayloadFaithfulIff | panelapi/client.go:182-189 | every payload that can result is faithful iff all keys fit and keys for one number carry the same usage |
| Panels.LeadingZeroLoses | panelapi/client.go:182-189 | with `007` and `7` no payload is faithful |
| Panels.ClientPush | panelapi/client.go:158-210 | fails iff refused although a matched tag has a user that a payload can carry; what the panel receives is its share of the delta, and nothing on failure |
| Panels.PushRouted | panelapi/source_map.go:72-82 | pushes in any order up to the first failure; success means that every panel has its share |
| Panels.PushChain | panelapi/source_filter.go:20-29 | through filter, map and clients: on success every panel has exactly its share of the delta, on failure some panel with a share refused |
| Panels.PushMulti | panelapi/multi.go:36-46 | clients are pushed to in order up to the first one that refuses and has something to send, each with the share it matches itself |
| Panels.ShareIsExact | panelapi/client.go:158-189 | when at most one key for a number has bytes, and the number fits, the payload entry is exactly the sum over the tags delivered to that panel |
| Panels.EveryByteIsAccounted | panelapi/source_map.go:72-117 | for every delta, number and direction: the sum over all tags and keys = dropped by source + without panel + unmatched + received by the panels, when each panel gets the number under one key |
| Panels.AccountedIff | panelapi/client.go:182-189 | with byte counts that are not negative, the conservation law holds for all payloads the panels can receive iff each panel gets the number's bytes under one key that fits a machine integer |
| Panels.SomeShareIsShort | panelapi/client.go:182-189 | otherwise some payload has less than the tags carry |
| Panels.FlushChain | panelapi/sync.go:70-98 | a flush through the chain commits exactly what each numeric user owed, and only when every panel has received its share |
| FlushRuns.ReceivedIs | panelapi/sync.go:70-98 | over any run of flushes a panel has received of a number what was committed of its tags plus what it accepted in flushes that failed elsewhere |
| FlushRuns.NothingCommittedIsMissing | panelapi/sync.go:70-98 | a panel has received at least what was committed, and exactly that iff no flush that failed had brought it bytes of the number |
| Int64.BurstIsAFifth | counter/ratelimit.go:42-51 | the burst is a fifth of the rate, at least 64 KiB, iff the rate is at most 46116860184 bytes per second; beyond that it is smaller |
| Int64.MbpsIsExact | cmd/star1ight-agent/user_manager.go:66-71 | the conversion from Mbps is exact iff the product fits in 64 bits |
| Int64.BurstOfMbps | counter/ratelimit.go:42-51 | for a rate in Mbps the burst is 25000 bytes per Mbps, at least 64 KiB, iff it is at most 368934 Mbps |
| RateBound.BytesWithinRate | counter/ratelimit.go:113-139 | for any connections sharing a bucket, any changes of its rate and any interleaving of their steps, the bytes written are at most the highest rate times the time since creation plus the drift of the clock readings |
| RateBound.BytesWithinRateInOrder | counter/ratelimit.go:194-218 | when operations reach the bucket in the order of their clock readings, the bytes written are at most the highest rate times elapsed time, with no initial burst |
| RateBound.BoundIffInOrder | counter/ratelimit.go:131-136 | at every rate: the bytes written stay within rate times elapsed time in all runs whose operations are at most eps late iff eps is not positive |
| RateBound.StaleReadingBreaksBound | counter/ratelimit.go:131-136 | a run at 65536 bytes per second in which one operation is a second late and 131073 bytes pass in little more than a second |
| RateChanges.LoweredRateIff | counter/ratelimit.go:53-77 | from any reachable state in which nobody waits for the lock, while no rate is set and operations come in order, at most the burst and what the rate earns passes in every run iff the chunks that wait come due no faster and leave room for the tokens in the burst |
| RateChanges.LoweringLetsGrantsPass | counter/ratelimit.go:53-77 | a run in which more passes after the rate was lowered than the lower rate earns and its burst together |
| RateChanges.BytesOverBuckets | counter/ratelimit.go:53-90 | over all the buckets of a limiter that is disabled or closed and set to a rate again, the bytes written are at most what the highest rate earns since the first was made, with drift and with the time dropped buckets were still charged, plus the debts of the dropped buckets |
| RateChanges.ReopeningLetsGrantsPass | counter/ratelimit.go:79-90 | two buckets of one limiter that meet that bound, with twice the bytes the rate earns |
| RateLimiter.RateLimiter.SetRate | counter/ratelimit.go:53-77 | a positive rate reopens the limiter on its bucket or on a drained new one; any other rate drops the bucket |
| RateLimiter.RateLimiter.Close | counter/ratelimit.go:79-90 | closes, disables and drops the bucket |
| RateLimiter.RateLimiter.Snapshot | counter/ratelimit.go:107-111 | what an iteration of a wait sees, with a burst of at least one chunk when enabled |
| RateBound.FreshIsDrained | counter/ratelimit.go:66-76 | a new bucket has no token left when SetRate returns |
| RateBound.LockedIs | counter/ratelimit.go:53-77 | every operation does to the bucket what the library's function does, and only a charge within the burst is granted, what it asked for |
| TokenBucket.EarnsAtBothRates | counter/ratelimit.go:67-69 | a bucket earns at the old rate until a new one is set and at the new one from then on |
| RateLimiter.Wait | counter/ratelimit.go:113-139 | the loop returns the error and makes the charges of the specification, whatever the settings become in between |
| RateLimiter.WaitCharges | counter/ratelimit.go:113-139 | at most n is charged in at most one charge per started 64 KiB, and nil is returned iff exactly n was charged or the limiter was found disabled |
| RateLimiter.ChunkIsOneCharge | counter/ratelimit.go:113-139 | a write chunk is charged at once and never refused for its size |
| RateLimiter.RefusedOnlyIfBurstShrank | counter/ratelimit.go:131-136 | only a wait beyond 64 KiB is refused, and only after the burst shrank behind its snapshot |
| RateLimiter.Write | counter/ratelimit.go:194-218 | puts exactly the reported prefix on the wire, never ahead of what was charged or let pass, and fails only for a closed limiter or the connection; without a limiter what the connection takes is written |
| RateLimiter.WriteChunk | counter/ratelimit.go:203-215 | one turn of the write loop: the charge, then the part of the chunk that was taken |
| InboundTables.AgreementIff | cmd/star1ight-agent/user_manager.go:88-200 | a table that agreed with the old users agrees with the new ones iff every unchanged user is spared and no two new users claim one key with different rows |
| InboundTables.ShadowsocksAgrees | cmd/star1ight-agent/user_manager.go:187-198 | Shadowsocks tables always keep agreeing |
| InboundTables.Hysteria2AgreesIff | cmd/star1ight-agent/user_manager.go:176-186 | Hysteria2 tables keep agreeing iff the new passwords are distinct |
| InboundTables.VlessAgreesIff | cmd/star1ight-agent/user_manager.go:165-175 | VLESS tables keep agreeing iff no unchanged user shares a UUID with a deleted one that is not added again; distinct old UUIDs suffice |
| InboundTables.AgreementIsKept | cmd/star1ight-agent/user_manager.go:88-205 | with distinct UUIDs before and distinct passwords after, every table holds exactly the new users' rows |
| InboundTables.AgreesIsTable | cmd/star1ight-agent/user_manager.go:73-86 | a table that agrees with the users has exactly the non-empty UUIDs (VLESS), under each password its user's name, or the password, and id (Hysteria2), or under each printed id the password (Shadowsocks) |
| InboundTables.SparedVlessIff | cmd/star1ight-agent/user_manager.go:119-141 | in terms of the lists: every unchanged user keeps its VLESS row iff whoever shares its UUID and leaves or changes is made good by a user that brings the UUID back |
| InboundTables.SharedUuidIsLost | cmd/star1ight-agent/user_manager.go:119-141 | the failing case of two users with one UUID |
| InboundTables.SharedPasswordIsLost | cmd/star1ight-agent/user_manager.go:142-162 | the failing case of two users with one password |
| InboundTables.AgreementFromAnyTable | cmd/star1ight-agent/user_manager.go:164-204 | whatever the table had, after a success it agrees with the new users iff its untouched keys were right already and no two users claim one key |
| InboundTables.AgreementAfterFailures | cmd/star1ight-agent/user_manager.go:164-204 | a table that agreed before any number of failed lists agrees after a success iff they left nothing besides what the list touches, unchanged users are spared and no two users claim one key |
| InboundTables.LeftoverRowStays | cmd/star1ight-agent/user_manager.go:164-204 | a row that a failed list left stays when the next list lacks its user |
| TableRuns.AgreementOverRun | cmd/star1ight-agent/user_manager.go:164-204 | after any run of lists that failed at other inbounds and a success, a table agrees iff every key the list does not touch was restored by the last list that touched it, unchanged users are spared and no two users claim one key |
| TableRuns.LeftAt | cmd/star1ight-agent/user_manager.go:164-204 | through such a run a key keeps its row iff the last list taken that touched it restored it |
| InboundTables.RetryConverges | cmd/star1ight-agent/user_manager.go:164-204 | whatever failed attempts left of the touched keys, a later success is a patch of the original table |
| InboundTables.PatchIsUnique | cmd/star1ight-agent/user_manager.go:164-204 | there is one way to patch a table, so a retry ends where a first success would |
| InboundTables.NextAt | cmd/star1ight-agent/user_manager.go:92-103 | the new users are the last ones listed under each positive id |
| InboundTables.SecretsAt | cmd/star1ight-agent/user_manager.go:93-103 | a secret is known iff a listed user owns it, and stands for the last owner |
| InboundTables.SecretsResolveIff | cmd/star1ight-agent/user_manager.go:228-238 | every user is found under each of its secrets iff no secret belongs to two ids |
| Inbounds.DiffPatches | cmd/star1ight-agent/user_manager.go:105-162 | deleting the keys and adding the rows of the difference, in the order of the ids, patches a table |
| Inbounds.DeletedKeys | cmd/star1ight-agent/user_manager.go:119-141 | exactly the keys of users that are gone or changed a secret |
| Inbounds.AddedRows | cmd/star1ight-agent/user_manager.go:142-162 | exactly the rows of users that are new or changed, ascending by id |
| Inbounds.UpdateInbound | cmd/star1ight-agent/user_manager.go:164-200 | success patches the table; a failure touches only keys of the difference; it succeeds iff no operation that has something to do fails |
| Inbounds.UpdateInbounds | cmd/star1ight-agent/user_manager.go:164-200 | the same for all inbounds, up to the first failure |
| Inbounds.SortIds | cmd/star1ight-agent/user_manager.go:113-117 | the ids of the new users in ascending order, each once |
| UserManager.UserManager.ApplyBox | cmd/star1ight-agent/user_manager.go:88-205 | limiters follow the list in any case; users, secrets and tables follow it iff no inbound operation fails; pairs are those of the run of lists, and pairs in step stay so on success |
| UserManager.UserManager.ApplyAgreed | cmd/star1ight-agent/user_manager.go:88-205 | with distinct UUIDs before and distinct passwords after, a success leaves every inbound's table with exactly the new users' rows: their UUIDs, their passwords under their printed ids, or their passwords with name and id |
| ListRuns.PairsIff | cmd/star1ight-agent/user_manager.go:119-162 | after any run of lists, failed ones included, an id has a pair iff some list opened it and no later list closed it |
| ListRuns.LeftByFailure | cmd/star1ight-agent/user_manager.go:119-204 | an id that the last list lacks has a pair iff a failed list opened it and no later list closed it |
| ListRuns.InStepIff | cmd/star1ight-agent/user_manager.go:119-204 | after a success exactly the limited users have a pair iff no failed list opened one for an absent id that no later list closed |
| ListRuns.InStepWithoutFailures | cmd/star1ight-agent/user_manager.go:88-205 | in a run without failures exactly the limited users have pairs |
| UserManager.UserManager.ApplyUntil | cmd/star1ight-agent/user_manager.go:164-204 | any number of failing attempts at a list followed by a success gives the users, secrets, limiters and tables of an immediate success |
| UserManager.UserManager.UpdateLimiter | cmd/star1ight-agent/user_manager.go:207-219 | a limited user has a pair at its rate, the same object as before if there was one, any other user none; other pairs keep theirs |
| UserManager.UserManager.CloseLimiter | cmd/star1ight-agent/user_manager.go:221-226 | closes and forgets the pair of one id; every pair ever made stays either closed or current |
| UserManager.LimiterOutlivesUser | cmd/star1ight-agent/user_manager.go:88-205 | two calls, one failing and one that lacks the failed list's user, leave an open pair for nobody |
| UserManager.RowOutlivesUser | cmd/star1ight-agent/user_manager.go:164-204 | two calls, one failing at the second inbound and one that lacks the failed list's user, leave its row in the first inbound |
| UserManager.KeepsTwice | cmd/star1ight-agent/user_manager.go:119-162 | applying a list a second time changes neither who has a pair nor which pair it is |
| UserManager.UserManager.Resolve | cmd/star1ight-agent/user_manager.go:228-238 | after any run of lists a name resolves to the printed id of its last owner on the last list that succeeded, and to itself if nobody owns it |
| UserManager.UserManager.ActiveIDs | cmd/star1ight-agent/user_manager.go:240-248 | the printed ids of exactly the present users |
| UserManager.UserManager.LimitersOf | cmd/star1ight-agent/user_manager.go:253-271 | a connection shares the pair of the whole node, if there is one, and a known limited user's connections share the open pair of its id, which is another one |
| Syncer.SyncUsers | cmd/star1ight-agent/main.go:584-590 | a counter disappears only after the list was applied to every inbound, and exactly when its user is not on it and it owes nothing |
| Syncer.Forget | cmd/star1ight-agent/main.go:133-138 | the counters that stay are those of present users and those that owe something |
| UserList.FetchUsers | panelapi/multi.go:12-34 | fails iff some panel fails, and otherwise merges the lists so that the first panel wins |
| UserList.AddPanel | panelapi/source_map.go:42-59 | adds one panel's users after those of the earlier panels |
| UserList.FirstOneIsKept | panelapi/multi.go:23-31 | a positive id is in the merged list iff some panel lists it, exactly once, as the first user listed |
| UserList.MergedInOrder | panelapi/multi.go:23-31 | the merged list has exactly the first user of each positive id and all others, in the order in which they are listed |
| UserList.FirstPanelDecides | panelapi/multi.go:12-34 | the merged list has, for a positive id, the first user of the first panel that lists it |
| CustomRouting.Merge | cmd/star1ight-agent/xboard_config.go:468-534 | fails iff an outbound is malformed or an active rule is refused, and otherwise emits first-wins outbounds, all active rules and raw routes in order, and the first DNS settings and route options |
| CustomRouting.RulesOfMerge | cmd/star1ight-agent/xboard_config.go:498-517 | whatever raw routes stand between them, the structured rules of the result are the active rules of all configurations in order |
| RoutingResult.ItemsOfMerge | cmd/star1ight-agent/xboard_config.go:498-517 | the items of the result are, configuration by configuration, its structured rules and then its raw routes at exactly the positions that give neither DNS settings nor route options, in order |
| RoutingResult.RouteIs | cmd/star1ight-agent/xboard_config.go:519-533 | there is a route iff there are items or options, and without an option `final` everything else goes out directly |
| RoutingResult.OutboundIs | cmd/star1ight-agent/xboard_config.go:541-562 | an emitted outbound has its settings, its tag, its protocol under one name, and the tag of its proxy iff it has one |
| RoutingResult.WellFormedIff | cmd/star1ight-agent/xboard_config.go:541-562 | an outbound needs a tag, a protocol and settings |
| RoutingResult.MatchIs | cmd/star1ight-agent/xboard_config.go:592-599 | a match has, under the key of each list that is not blank, what that list keeps |
| RoutingResult.TextsKept | cmd/star1ight-agent/xboard_config.go:626-642 | a list of texts keeps the trimmed ones that are not blank, in order |
| RoutingResult.PortsKept | cmd/star1ight-agent/xboard_config.go:644-690 | a list of ports keeps its numbers up to 65535 and, apart from them, its other values, each in order |
| RoutingResult.RulesKept | cmd/star1ight-agent/xboard_config.go:574-624 | the rules of a configuration that was not refused are those enabled ones that match something, in order, each with its target, or `direct` or `block` by its action |
| RoutingResult.RefusedIff | cmd/star1ight-agent/xboard_config.go:604-623 | a rule that counts is refused iff its action is unknown, or it routes without a target or to one that is not known in lower case |
| CustomRouting.DnsOfMerge | cmd/star1ight-agent/xboard_config.go:479-517 | the DNS settings are the first that a configuration has, or else the first that a raw route carries |
| CustomRouting.OptionsOfMerge | cmd/star1ight-agent/xboard_config.go:482-517 | the route options are the first that a configuration has, or else the first that a raw route gives whose own DNS settings were not taken |
| CustomRouting.FirstPassFinds | cmd/star1ight-agent/xboard_config.go:478-484 | the settings and options taken in the first pass are those of the first configuration that has any |
| CustomRouting.FirstOnesWin | cmd/star1ight-agent/xboard_config.go:485-496 | the emitted outbounds are the first of each key that is not built in, in their order |
| CustomRouting.EmittedTagsDiffer | cmd/star1ight-agent/xboard_config.go:485-496 | emitted tags differ from each other and from the built-in ones, ignoring case |
| CustomRouting.KeptRulesHaveTargets | cmd/star1ight-agent/xboard_config.go:590-624 | every kept rule targets an emitted or built-in tag, ignoring case |
| CustomRouting.TargetsExistIff | cmd/star1ight-agent/xboard_config.go:590-624 | after a successful merge every rule's outbound is an emitted tag or a built-in one as it stands iff every active routing rule was written with the very tag of an emitted outbound or a built-in one |
| CustomRouting.CaseIsNotChecked | cmd/star1ight-agent/xboard_config.go:605-608 | a rule passes whose target differs from every emitted tag in case |
| CustomRouting.BuildRule | cmd/star1ight-agent/xboard_config.go:590-624 | refuses exactly the rules without a known target or with an unknown action, drops those that match nothing |
| CustomRouting.MatchesNothingIff | cmd/star1ight-agent/xboard_config.go:626-690 | a rule matches nothing iff all its lists are blank |
| Text.DecimalRoundTrip | cmd/star1ight-agent/user_manager.go:81-86 | a printed id is a numeric user key and denotes that id |
| Text.DecimalInjective | cmd/star1ight-agent/user_manager.go:240-248 | different ids print differently |
| Text.NoLeadingZero | cmd/star1ight-agent/user_manager.go:81-86 | no number is printed with a leading zero |
| Text.NumericIsPadded | panelapi/sync.go:132-142 | every numeric user key is a printed number with zeros in front |
| Text.PlaceValues | panelapi/client.go:182-189 | a digit of a user key stands for its value times the power of ten of its place |
| Text.TrimIs | panelapi/source_map.go:153-158 | trimming takes all white space off both ends and nothing else |
| Text.SplitJoins | cmd/star1ight-agent/session_tracker.go:42-46 | the pieces of a split string contain no separator and join to it again |
| Text.LowerIs | panelapi/client.go:145-156 | lower case changes the ASCII capitals and nothing else |

## Left out

- HTTP requests, JSON, URLs, tickers, signals and log output: a push or fetch is a parameter that succeeds or fails, and a failed one has recorded nothing.
- sing-box inbounds and connections: only their keyed user tables and the byte counts remain. That adding an existing key overwrites it and deleting a missing key is harmless is an assumption about code that is not part of this model.
- UserManager.LimiterPair.constructor: holds the settings of its two limiters by value; the buckets behind them are those of `RateLimiter.RateLimiter`.
- UserManager.UserManager.ApplyBox: closes and updates limiters in loops of their own beside the loops that collect the changes; the agent does both in one pass.
- Counter.TrafficCounter.RemoveAbsent: check and delete are one step for the object; `Ledger` models them as two, with counting in between.
- Counter.ConnCounter.CountUp: counters are unbounded integers; the wrap of a 64-bit byte counter is not modelled. Reads, writes, packets and read waiters call it alike and are not repeated.
- SessionTracker.Tracker.Open: the tracker's mutex makes each call one step; only the closures of a prepared session are modelled below that level.
- RateBound.BytesWithinRate: tokens and times are reals; the rounding to nanoseconds and floating point in the token-bucket library is not modelled, and neither are cancelled reservations, since waits use a background context.
- RateLimiter.Wait: other goroutines act through what each iteration sees of the limiter; a snapshot that belongs to no real run of settings is allowed as well.
- RateLimiter.Write: `Read`, `ReadBuffer` and `WriteBuffer` charge in the same way and are not repeated; the packet path only checks whether the limiter is closed.
- SourceClassifier.ParseSourceBuckets: prefix and address parsing are abstract functions, of which only what the classifier needs is assumed.
- Delivery.RouteTraffic: panels are numbers. A multi panel as the default of a source map, which the agent cannot use as a map key, is not modelled.
- Panels.PushChain: a panel that accepted its part before another one refused receives it again with the next push; only that nothing is committed before every panel accepted is stated.
- Panels.PushMulti: the names and number of clients are fixed; nil panels, which are skipped, are left out.
- TableRuns.AgreementOverRun: the inbound at which a list fails may be left half-way, and is only covered by `InboundTables.AgreementAfterFailures`.
- RateChanges.LoweredRateIff: starts where nobody waits for the bucket's lock, as when SetRate has returned and no other call is in between.
- Presence.PanelShowsLastAlive: the panel is one that takes reports tag by tag; what a source map in between overwrites is stated in `AliveDelivery`.
- AliveDelivery.RouteAlive: the filter in front of it is that of `Delivery.FilterTraffic`, and copying of address slices is not modelled.
- CustomRouting.Merge: what is passed on unchecked, raw routes, DNS settings and route options, is a map of strings, and a single port is not unwrapped from its list.
- Text.DecimalRoundTrip: lower case covers ASCII letters only, and strings are sequences of code points.
- `ParseSourceServerMap`, `parseSourceBucketSpecs` and `parseSourceDropLabels`: they split flag values at separators and trim the pieces.
- The client's defaults for passwords and names of fetched users, and the shortening of Shadowsocks passwords: they rewrite single fields before the list is applied.
- Nil receivers and nil maps: the guards that make them no-ops add nothing.
- `SourceSnapshot`, the `/stats` reader, the machine reporter, debug sampling, certificates and configuration files: they copy or format what is modelled here.
