# FlowLogix, verified

A Dafny model of the four parts of FlowLogix whose correctness rests on invariants rather than on
plumbing, with proofs that hold for all inputs, all runs and all interleavings of the model.

- **Ordering.** `FractionalIndexer` mints string keys strictly between two neighbours and re-spreads
  a column onto fixed-width keys. `FractionalIndexing.dfy` models the class, `KeyMinting.dfy`,
  `KeyValues.dfy` and `KeyRebalancing.dfy` what it promises, `CardPlacement.dfy` the cards service
  and whole runs over one column, `CardMoves.dfy` its moves within a board, `RebalanceJob.dfy` the
  nightly job over all tenants.
- **Offline sync.** The field-level last-writer-wins merge was written twice, for the phone
  (`MobileMerge.dfy`) and for the server (`ServerMerge.dfy`). Both are shown to be one join
  (`SyncLattice.dfy`), so replicas converge (`MergeHistory.dfy`). `SyncEngine.dfy` is the client
  engine, `EngineOutcomes.dfy` what its edits and pulls leave, `SyncProtocol.dfy` any number of
  devices over a network that loses, delays, reorders and repeats messages, `ServerSync.dfy` the
  `/sync` change loop, `ChangeAbsorption.dfy` what it amounts to for the rows, `SyncResponses.dfy`
  what it answers, `SyncTransactions.dfy` any number of concurrent `/sync` transactions with their
  row locks, `SyncDeadlock.dfy` when they can block each other. `ElementSet.dfy` and `Clocks.dfy`
  are the element set and the device clock.
- **Realtime.** `ReplayLog.dfy` is the sequence counter with its trimmed log, `BoardSocket.dfy` the
  client's sequence handling, `DeltaSync.dfy` the protocol between them, `BoardReplay.dfy` what a
  client is then handed. `Outbox.dfy` is the persisted queue of offline mutations, `OutboxProgress.dfy`
  when it moves.
- **Client state machines.** `UploadPool.dfy` and `UploadRuns.dfy` are the attachment worker pool and
  its interleavings, `UploadRetries.dfy` what becomes of one upload, `UploadProgress.dfy` that passes
  end; `RemoteMutations.dfy`, `BoardStore.dfy`, `BoardRuns.dfy` and `BoardKeys.dfy` are the optimistic
  board, `MoveRoundTrip.dfy` its moves by way of the server.

`Text.dfy` (JavaScript strings and their order), `Arithmetic.dfy` and `Wrappers.dfy` support them.
`dafny verify dfyconfig.toml` checks the project.

Code that updates fields or loops is modelled by classes and methods, each proved against a
specification function; the properties are lemmas about those functions. An asynchronous method is
cut at its `await`s: every step runs from one `await` to the next, and a run is any sequence of
enabled steps.

## Reading notes

- Strings are sequences of UTF-16 code units. JSON values are compared by their text, so `undefined`
  and `null` are one value to a merge. An absent field counts as clock 0 with `null`. Clocks are reals.
- `fractional-indexer.ts` promises that minted keys are valid for every alphabet. `isValidKey` walks
  code points while keys are built unit by unit, so the promise holds exactly for alphabets without
  both halves of a surrogate pair (`KeyMinting.ClosedIffPairFree`); Base62 is one of them. All
  betweenness, order and rebalance facts hold for every accepted alphabet.
- The `/sync` flags have a blind spot: on a clock tie that the server's value wins, the change is neither
  accepted nor answered, and the phone keeps its value (`ServerMerge.SilentLossIffTie`).
- A field that a phone omits, or whose value the sanitizer drops, can win the merge at clock 0. The database
  update skips the undefined value, so the row is not the merge that was computed; what it is instead, and
  exactly when, is proved (`ServerMerge.StoredIsOverlayIff`, `ServerMerge.StoredIsJoinIff`).
- Locking rows in the order of raw ids is meant to exclude deadlock. A `uuid` column ignores letter case and
  raw order does not, so it does exactly for ids whose raw order is an order of the rows
  (`SyncDeadlock.NoDeadlockIffOrdersAgree`).
- The replay handler calls a batch "contiguous" after testing only its first frame. Emits overlap, so the log
  can have holes, and then a mutation is skipped for good (`DeltaSync.OverlapSkipsAMutation`). The guarantees
  hold exactly without holes (`DeltaSync.InSequenceIffHoleFree`), in particular when emits append in order.
- A confirmed or rolled-back card can end up out of key order, when a peer moved another card past it meanwhile
  (`BoardKeys.ConfirmCanBreakOrder`, `BoardKeys.RollbackCanBreakOrder`); exactly when is proved.
- A stored clock below 0, which the endpoint accepts on insert, breaks two laws that the comments of the change
  loop rely on; exactly when is proved (`ChangeAbsorption.RowsAbsorbIff`,
  `ChangeAbsorption.ProcessingOrderIsIrrelevantIff`). Serialisability does not depend on it.
- Device clocks are not compared with stored stamps, so an edit by a slow device can be lost
  (`SyncEngine.SlowEditIsLostIff`). A push can be accepted with a field dropped, and then the phone keeps that field
  without pushing it again (`SyncProtocol.PushIsNotNewerIff`).
- An item that is enqueued anew while a pass has it in hand is overwritten by the outcome of the upload under way,
  which may park it with none of its new attempts used (`UploadRetries.RaceParksEarly`).
- A joined acknowledgement that arrives after later live frames moves `lastSeq` back and reloads; the
  guarantees between reloads take this into account.

## Model

| member | source | states |
|---|---|---|
| `FractionalIndexing.NewIndexer` | backend/src/common/ordering/fractional-indexer.ts:61-98 | the constructor accepts exactly the alphabets of at least two strictly ascending units with a one-unit, non-zero seed from the alphabet, reports the first failing check otherwise, and builds the inverse of the alphabet as its rank table |
| `FractionalIndexing.NewBase62Indexer` | backend/src/common/ordering/fractional-indexer.ts:33-98 | the default Base62 alphabet is accepted, seeded with M, and holds no surrogates |
| `FractionalIndexing.Indexer.ValidKeyIff` | backend/src/common/ordering/fractional-indexer.ts:226-233 | `isValidKey`, which walks code points, accepts exactly the well-formed keys (alphabet units, not ending in zero) without a surrogate pair |
| `FractionalIndexing.Indexer.MidpointLoop` | backend/src/common/ordering/fractional-indexer.ts:288-322 | the scanning and recursive code of `midpoint` computes the specified midpoint and terminates |
| `FractionalIndexing.Indexer.SharedRunSplits` | backend/src/common/ordering/fractional-indexer.ts:295-303 | the scan stops inside the upper bound, before which the bounds agree up to zero padding, and leaves two proper bounds that differ at once |
| `FractionalIndexing.Indexer.MidpointIsBetween` | backend/src/common/ordering/fractional-indexer.ts:288-322 | for proper bounds, open above or not, `midpoint` never throws; its result is well-formed, strictly between, and at most one unit longer than the longer bound |
| `KeyMinting.IntermediateKeyIsBetween` | backend/src/common/ordering/fractional-indexer.ts:113-136 | `getIntermediateKey` succeeds exactly on valid ascending bounds, strictly between them; its "internal error" and the precondition throw of `midpoint` are unreachable, for every accepted alphabet and seed |
| `KeyMinting.ClosedIffPairFree` | backend/src/common/ordering/fractional-indexer.ts:17-24 | every minted key is accepted back by `isValidKey` if and only if the alphabet does not hold both a high and a low surrogate; the promise is made for every alphabet |
| `KeyMinting.BisectToPair` | backend/src/common/ordering/fractional-indexer.ts:226-233 | for the other alphabets, valid neighbours between which the minted key is refused |
| `KeyMinting.NothingBelowTrailingZero` | backend/src/common/ordering/fractional-indexer.ts:17-24 | no key lies between p and p followed by the zero unit, which is why keys may not end in it |
| `KeyValues.StringOrderIsFractionOrder` | backend/src/common/ordering/fractional-indexer.ts:17-24 | on valid keys, string order is the order of the base-N fractions they denote, and distinct keys denote distinct fractions |
| `KeyValues.TrailingZeroIsSameFraction` | backend/src/common/ordering/fractional-indexer.ts:17-24 | without the no-trailing-zero rule this fails: p and p0 differ as strings and denote one fraction |
| `KeyValues.MintedFractionIsBetween` | backend/src/common/ordering/fractional-indexer.ts:113-136 | the minted key is also numerically between its neighbours, open ends being 0 and 1 |
| `KeyRebalancing.EncodeFixedLoop` | backend/src/common/ordering/fractional-indexer.ts:325-334 | the array filled from its last cell holds the fixed-width encoding |
| `KeyRebalancing.DecodeEncode` | backend/src/common/ordering/fractional-indexer.ts:325-334 | decoding inverts `encodeFixed` for every value below base^width; the digits are alphabet units and the last one is the value's last digit |
| `KeyRebalancing.FixedWidthOrder` | backend/src/common/ordering/fractional-indexer.ts:325-334 | at one width, string order is numeric order and equality is equality |
| `KeyRebalancing.RawPicksAreSpaced` | backend/src/common/ordering/fractional-indexer.ts:172-223 | raw picks are at least two slots apart, at least 2 and at most base^width - 2 |
| `KeyRebalancing.PicksIncrease` | backend/src/common/ordering/fractional-indexer.ts:172-223 | nudged picks increase strictly, stay below base^width and never end in the zero digit |
| `KeyRebalancing.RepairedPick` | backend/src/common/ordering/fractional-indexer.ts:202-222 | the `value <= previousValue` repair never changes a pick |
| `KeyRebalancing.Rebalance` | backend/src/common/ordering/fractional-indexer.ts:151-223 | `rebalance` as written, with its checks in order and its widening loop, computes the specified keys or the specified throw |
| `KeyRebalancing.FitWidthIsLeast` | backend/src/common/ordering/fractional-indexer.ts:172-200 | without a target, the chosen width is the least from 2 on with two slots per gap, and the unsafe-key-space throw happens only when that width would pass the safe integers |
| `KeyRebalancing.RebalancedKeysAreSpread` | backend/src/common/ordering/fractional-indexer.ts:151-223 | for every accepted count and width: exactly count keys of that one width, well-formed, strictly increasing as strings, decoding to the nudged picks |
| `KeyRebalancing.RebalancedKeysAreShort` | backend/src/common/ordering/fractional-indexer.ts:151-223 | Base62 keys of a rebalanced column have at most 8 characters, and it fails only above 62^8 slots |
| `KeyRebalancing.RebalancedKeysAreEven` | backend/src/common/ordering/fractional-indexer.ts:151-223 | the keys split the key space of their width evenly: decoded, key k is within one slot of its share (k+1)/(count+1), no two gaps, those at both ends included, differ by more than three slots, and the width is the forced one or the least that fits |
| `KeyRebalancing.RebalanceSucceedsIff` | backend/src/common/ordering/fractional-indexer.ts:151-200 | `rebalance` fails exactly for a negative count or when no width fits the count, a widened one having to stay within the safe integers |
| `RebalanceJob.ListingIsUnique` | backend/src/common/ordering/position-rebalance.service.ts:96-100 | the (position, created, id) order lists a column in exactly one way |
| `RebalanceJob.SelectOrdered` | backend/src/common/ordering/position-rebalance.service.ts:96-100 | the ordered read returns that listing |
| `RebalanceJob.RebalanceTable` | backend/src/common/ordering/position-rebalance.service.ts:83-112 | one pass re-spreads exactly the columns with an over-long key, touches no other row, counts the columns, and throws exactly when some over-long column has no safe key space |
| `RebalanceJob.RespreadKeepsOrder` | backend/src/common/ordering/position-rebalance.service.ts:95-110 | a re-spread column keeps its (position, created, id) order exactly even where keys collided; its keys become distinct, well-formed and at most 8 long |
| `RebalanceJob.JobKeepsOrder` | backend/src/common/ordering/position-rebalance.service.ts:50-112 | after the job every column keeps its row order, no visited tenant has an over-long key, and columns without one are untouched |
| `RebalanceJob.PositionRebalanceService.RebalanceOverlongColumns` | backend/src/common/ordering/position-rebalance.service.ts:50-80 | skipped without the advisory lock, all-or-nothing when a column throws, otherwise every tenant's lists and cards are passed once and counted |
| `CardPlacement.CardsService.ResolvePositionFromNeighbors` | backend/src/cards/cards.service.ts:142-187 | the throws in their order, then the key between the named neighbours' keys |
| `CardPlacement.CardsService.ResolvePosition` | backend/src/cards/cards.service.ts:194-208 | a valid supplied key is used, an invalid one refused, and none means after the greatest key of the list |
| `CardPlacement.CardsService.Create` | backend/src/cards/cards.service.ts:26-51 | a list of another tenant is refused; otherwise one new row with the resolved key, or nothing |
| `CardPlacement.CardsService.Update` | backend/src/cards/cards.service.ts:70-136 | an unknown card, a list of another tenant and a list on another board are refused in that order; neighbours win over a supplied key, which wins over appending on a list change; one row is written, or none on a throw |
| `CardPlacement.NeighborsNameTheSlot` | backend/src/cards/cards.service.ts:142-187 | naming the two cards around a slot mints the key for exactly that slot of the other cards |
| `CardPlacement.AppendNamesTheLastSlot` | backend/src/cards/cards.service.ts:194-208 | appending mints for the last slot |
| `CardPlacement.PlacedAtSlot` | backend/src/cards/cards.service.ts:142-208 | a row with the minted key sits exactly in its slot: the column stays strictly ordered with well-formed keys, at most one unit longer |
| `CardPlacement.RunKeepsColumn` | backend/src/cards/cards.service.ts:142-208 | from an empty column, any run of appends, inserts and moves at any slot (of new cards, cards of the list and cards from other lists), removals and rebalances keeps keys valid and distinct (for the alphabets that minting is closed over, Base62 included), the database order equal to the intended order, and lengths within the last rebalance width plus one per placement since |
| `CardMoves.NeighborsYieldKeyIff` | backend/src/cards/cards.service.ts:142-187 | named neighbours yield a key if and only if each is another card of the same list and tenant with a valid key and they ascend; the key is strictly between theirs |
| `CardMoves.MoveLandsInSlot` | backend/src/cards/cards.service.ts:70-208 | an update that names the neighbours of any slot of any list of the board is accepted, and the card then stands in that slot, from whatever list it came and however empty the target is |
| `CardMoves.UpdateLeavesOthers` | backend/src/cards/cards.service.ts:70-136 | an accepted update takes the card out of every other list and leaves those in order |
| `CardMoves.RequestsKeepBoards` | backend/src/cards/cards.service.ts:70-136 | over any run of update requests no card appears, vanishes, or leaves its tenant or board |
| `CardMoves.AcceptedNeighborsHold` | backend/src/cards/cards.service.ts:142-187 | and every accepted request that named neighbours named other cards of the list and tenant it asked for, and left its card strictly between them |
| `SyncLattice.JoinIsJoin` | mobile/src/crdt/mergeRecord.ts:37-90 | the per-field (clock, value) maximum with the tombstone maximum is a join: commutative, associative, idempotent, least upper bound of an antisymmetric order |
| `SyncLattice.MaxWriterIsJoin` | mobile/src/crdt/mergeRecord.ts:145-153 | the last-writer annotation is a maximum of a total order as well |
| `SyncLattice.OverlayIsLeastUpperBound` | backend/src/sync/sync-merge.ts:45-98 | laying a partial record over a row, in the fields it carries, is their least upper bound |
| `MobileMerge.MergeRecord` | mobile/src/crdt/mergeRecord.ts:37-90 | `mergeRecord` as written refuses different ids and otherwise computes the specified record, report and changed flag |
| `MobileMerge.MergedIsJoin` | mobile/src/crdt/mergeRecord.ts:37-90 | its cells and tombstone are the join of the inputs', its writer the greater writer |
| `MobileMerge.MergeLaws` | mobile/src/crdt/mergeRecord.ts:37-90 | on records without stray clocks, whatever their fields, the merge is commutative and associative, annotation included; on records with a clock for each field it is idempotent |
| `MobileMerge.ChangedIffNotBelow` | mobile/src/crdt/mergeRecord.ts:37-90 | `changed` is true exactly when the remote record brings something new, an absent field counting as absent on either side |
| `ServerMerge.MergeServerRecord` | backend/src/sync/sync-merge.ts:45-98 | `mergeServerRecord` as written computes the specified row, report and three flags |
| `ServerMerge.ServerAgreesWithMobile` | backend/src/sync/sync-merge.ts:45-146 | the two implementations compute the same fields, clocks and tombstone, and the same node once null reads as empty, whichever side runs them |
| `ServerMerge.MergedIsJoin` | backend/src/sync/sync-merge.ts:45-98 | the server's merge is the join, and leaves a clock for each field |
| `ServerMerge.ServerChangedIffNotBelow` | backend/src/sync/sync-merge.ts:55-96 | `serverChanged` is true exactly when the change brings something new; within the row's fields, exactly when the merge differs from the row |
| `ServerMerge.MergeDominatesClient` | backend/src/sync/sync-merge.ts:45-98 | the merged row absorbs both sides; unless the server is ahead, its stamps are the client's |
| `ServerMerge.SilentLossIffTie` | backend/src/sync/sync-merge.ts:45-98 | a change is neither accepted nor answered although the server keeps something else, exactly when the row's stamps tie with the change's and its values win |
| `ServerMerge.SameMillisecondIsLost` | backend/src/sync/sync-merge.ts:107-125 | such a change: two titles set at one stamp |
| `ServerMerge.OmittedFieldWinsIff` | backend/src/sync/sync.service.ts:572-578 | a field that the client omitted, or whose value was dropped, wins the merge exactly if its stored clock is below 0, or is 0 and its text precedes null |
| `ServerMerge.OmittedFieldIsKept` | backend/src/sync/sync.service.ts:339-356 | all the same its column keeps its value, since the update skips undefined values; at most a clock below 0 is lifted to 0 |
| `ServerMerge.StoredIsPatched` | backend/src/sync/sync.service.ts:339-356 | whatever the clocks, the row ends with each carried field joined in and each omitted one unchanged, but for a clock below 0, which is raised to 0 |
| `ServerMerge.StoredIsOverlayIff` | backend/src/sync/sync.service.ts:339-356 | omitted fields just stay if and only if none of them has a clock below 0 |
| `ServerMerge.StoredIsJoinIff` | backend/src/sync/sync.service.ts:339-356 | and as the full join if and only if no omitted field with a value ranks below an absent one |
| `ServerMerge.NegativeStampDependsOnOrder` | backend/src/sync/sync.service.ts:339-356 | such a clock makes the outcome depend on the order of changes: a row and two changes |
| `ServerMerge.TitleOnlyChangeOnWebCard` | backend/src/sync/sync.service.ts:339-358 | the input that shows it: a title-only change to a never-synced card "wins" its position, is reported as a change, and leaves the row as it was |
| `MergeHistory.ReplicasConverge` | mobile/src/crdt/mergeRecord.ts:37-153 | replicas that absorbed the same versions hold the same record, whatever the order, grouping and repetition of merges |
| `MergeHistory.ReplicaIsLeastUpperBound` | mobile/src/crdt/mergeRecord.ts:37-90 | a replica is the least upper bound of the versions it absorbed |
| `MergeHistory.DeletedIffTombstoneNewest` | mobile/src/crdt/mergeRecord.ts:92-108 | a record is deleted exactly when some tombstone is at least every field clock over all absorbed versions |
| `MergeHistory.DeletionTestsAgree` | backend/src/common/sync-visibility.ts:23-35 | the phone, the server and the web reads agree on deletion |
| `MergeHistory.FilterVisible` | backend/src/common/sync-visibility.ts:38-40 | exactly the rows that are not deleted remain |
| `MergeHistory.FilterVisibleKeepsOrder` | backend/src/common/sync-visibility.ts:38-40 | in the order they were read |
| `MergeHistory.FilterVisibleKeepsCount` | backend/src/common/sync-visibility.ts:38-40 | and each as often |
| `ElementSet.LwwElementSet.Merge` | mobile/src/crdt/lwwElementSet.ts:67-72 | both maps are bumped by every entry of the other set |
| `ElementSet.LwwElementSet.Has` | mobile/src/crdt/lwwElementSet.ts:45-53 | membership by the later stamp, ties by the bias |
| `ElementSet.LwwElementSet.FromJson` | mobile/src/crdt/lwwElementSet.ts:82-93 | a set restored from a snapshot has the same two maps and bias |
| `ElementSet.MapsAreMaxima` | mobile/src/crdt/lwwElementSet.ts:33-100 | after any adds, removes, merges and JSON round trips the maps hold the per-element maxima of the absorbed stamps |
| `ElementSet.ReplicasAgree` | mobile/src/crdt/lwwElementSet.ts:45-72 | replicas of equal bias that absorbed the same operations have the same members, which can be read off the operations alone |
| `Clocks.HybridClock.Now` | mobile/src/crdt/clock.ts:17-24 | each stamp is later than the one before and not behind the wall clock |
| `Clocks.StampsIncrease` | mobile/src/crdt/clock.ts:13-24 | one device's stamps increase strictly however the wall clock stalls or rewinds |
| `SyncEngine.Engine.Create` | mobile/src/sync/SyncService.ts:64-79 | all fields get one fresh stamp and the record is pending |
| `SyncEngine.Engine.Mutate` | mobile/src/sync/SyncService.ts:88-113 | only the patched fields are written and re-stamped; an unknown id throws and changes nothing |
| `SyncEngine.Engine.Remove` | mobile/src/sync/SyncService.ts:116-125 | a fresh tombstone, or nothing for an unknown id |
| `SyncEngine.Engine.ApplyRemote` | mobile/src/sync/SyncService.ts:173-194 | the stored record becomes the merge, pending only while some local stamp is ahead; an idle merge writes nothing |
| `SyncEngine.Engine.Acknowledge` | mobile/src/sync/SyncService.ts:206-235 | an accepted push clears pending only on records whose stamps are still those pushed |
| `SyncEngine.OfflineEditsMerge` | mobile/src/sync/SyncService.ts:81-113 | two devices that edit one record offline and merge, whatever their clocks: each field gets the greater of the two devices' cells, which is the edit of those who edited it and the stored cell of those who did not; deletion marks stay |
| `SyncEngine.SlowEditIsLostIff` | mobile/src/sync/SyncService.ts:81-113 | a field edit that only one device made is lost if and only if its stamp is behind the stored one, or ties with it and its text comes first |
| `SyncEngine.DeleteAgainstEdit` | mobile/src/sync/SyncService.ts:115-125 | a deletion merged with an edit made elsewhere stands exactly if the later of its stamp and any older tombstone is behind neither the edit nor any stored field clock |
| `EngineOutcomes.PullSettlesIff` | mobile/src/sync/SyncService.ts:173-204 | a pull joins the copy in, cell by cell, and ends the wait for a push exactly if the copy is at least as new in every stamp, leaving the record level with it; an unknown record arrives with nothing to push |
| `EngineOutcomes.PullTwiceIsPullOnce` | mobile/src/sync/SyncService.ts:149-194 | fetching a window again changes nothing, which a crash before the checkpoint is written relies on |
| `EngineOutcomes.CreatedWins` | mobile/src/sync/SyncService.ts:64-79 | a created record wins in all its fields against any older copy, undeleted and under its author |
| `EngineOutcomes.LaterDeviceSigns` | mobile/src/sync/SyncService.ts:88-113 | of two offline edits the device with the later one signs the merge, the greater id on a tie |
| `EngineOutcomes.RemovalMeetsOriginal` | mobile/src/sync/SyncService.ts:116-125 | a removal that meets the record as it was deletes it unless the device clock lies behind a stamp of it, and touches no field |
| `SyncProtocol.CarriedIsSanitized` | backend/src/sync/sync.service.ts:579-631 | the pushed record without its dropped fields is what the endpoint's sanitizer leaves of the change |
| `SyncProtocol.StepKeepsInvariant` | mobile/src/sync/SyncService.ts:173-247 | every edit, pull, push with any fields dropped, insert, server merge and acknowledgement keeps: copies sent out, pushes accepted and records not pending are nowhere newer than the server, but for field writes dropped from an accepted push |
| `SyncProtocol.RunSettlesAcknowledged` | mobile/src/sync/SyncService.ts:173-247 | over every run of any number of devices with lost, delayed and repeated messages, a record that is not pending has no tombstone newer than the server's, and no newer field clock but of a write that was dropped from an accepted push |
| `SyncProtocol.PushIsNotNewerIff` | backend/src/sync/sync.service.ts:572-631 | after a push the server is at least as new as the pushed record if and only if no dropped field came with a later clock than the row's |
| `SyncProtocol.AcceptedStopsPushing` | mobile/src/sync/SyncService.ts:206-235 | either way an accepted push is acknowledged and clears pending, so a dropped newer field stays on the phone |
| `SyncProtocol.SettledRecordsCatchUp` | mobile/src/sync/SyncService.ts:173-194 | if no two values share a stamp, pulling the current copy brings a record that is not pending level with the server, in its tombstone and in each synced field whose last write was not dropped |
| `ServerSync.Sanitize` | backend/src/sync/sync.service.ts:579-631 | the loop keeps exactly the synced fields whose values are accepted, and clocks only for those |
| `ServerSync.OnlySentValuesAreStored` | backend/src/sync/sync.service.ts:572-631 | a row's field only ever changes to an accepted value that the client sent, and to it exactly where its cell is the greater; an omitted or dropped field keeps its value, even where the merge lets it win |
| `ServerSync.SortByIdSorts` | backend/src/sync/sync.service.ts:261-270 | changes are locked in ascending raw id order, none is dropped, and those under one id keep their order |
| `ServerSync.SyncService.Sync` | backend/src/sync/sync.service.ts:261-373 | the change loop: find the row the id names, insert or merge, write the defined columns if changed, accept, echo, in id order |
| `SyncResponses.AcceptedIff` | backend/src/sync/sync.service.ts:300-373 | over every loop an id is accepted if and only if some change with it was inserted, or at its turn had a field above the row's, a later tombstone, or an omitted field over a stored stamp below 0 |
| `SyncResponses.LoopAnswers` | backend/src/sync/sync.service.ts:300-373 | the accepted ids and the records sent back, in order: one for each such turn, and one for each turn that met a row with something later than the change |
| `SyncResponses.SentIsEcho` | backend/src/sync/sync.service.ts:331-370 | a record sent back carries, for each field, the greater of the two cells, and the later tombstone |
| `SyncResponses.EchoIsStored` | backend/src/sync/sync.service.ts:331-370 | so it agrees with the row as it is then stored |
| `SyncResponses.UnseenRowIsInserted` | backend/src/sync/sync.service.ts:275-300 | an unseen row is what the first inserting change made of it, with the later changes merged in |
| `SyncResponses.PushIsAnswered` | backend/src/sync/sync.service.ts:261-373 | the step that the protocol model takes for a push, acknowledgement included, is what this loop does and answers |
| `ChangeAbsorption.LoopProcesses` | backend/src/sync/sync.service.ts:272-373 | the loop treats each existing row by itself: it ends as the merges of the changes that name it, one after the other |
| `ChangeAbsorption.RowsAbsorbIff` | backend/src/sync/sync.service.ts:272-373 | over every loop with changes from a given set, each existing row ends as its old state with every change to it joined in, in the fields it carries, if and only if none of the changes omits a field that the row stores with a clock below 0 |
| `ChangeAbsorption.AbsorbIsLeastUpperBound` | backend/src/sync/sync.service.ts:272-373 | that state is the least upper bound of the old state and the changes |
| `ChangeAbsorption.AbsorbOfFull` | backend/src/sync/sync.service.ts:272-373 | for a change with every synced field it is the plain join |
| `ChangeAbsorption.ProcessingOrderIsIrrelevantIff` | backend/src/sync/sync.service.ts:261-270 | a row ends alike in every order of every choice of changes from a given set, if and only if no change omits a field stored with a clock below 0 while another brings a value that clashes with it: a clock of 0 and an earlier text, or a greater cell with a clock below 0 and another text |
| `ChangeAbsorption.SortingIsHarmless` | backend/src/sync/sync.service.ts:261-270 | without such a pair, sorting the changes by id ends as processing them in the order they were sent |
| `ChangeAbsorption.IssuedStampsNeverDisagree` | backend/src/sync/sync.service.ts:261-373 | both conditions hold for every change to a row whose clocks are all at least 0, as device clocks are |
| `SyncTransactions.StepKeepsInvariant` | backend/src/sync/sync.service.ts:261-373 | lock, re-read, merge, write, commit and abort each keep: a transaction sees the committed row after what it processed itself, and owns every row it processed |
| `SyncTransactions.RunsAreSerial` | backend/src/sync/sync.service.ts:261-373 | serialisability: under any interleaving of any number of transactions each row is what the change loop makes of it from the committed requests alone, one after the other in the order of their commits, whatever the clocks |
| `SyncTransactions.NoUpdateIsLostIff` | backend/src/sync/sync.service.ts:300-373 | over all runs with changes from a given set, each row is its initial state with every committed change to it joined in, in the fields it carries, if and only if none of the changes omits a field that its row stores with a clock below 0 |
| `SyncDeadlock.NoDeadlockIffOrdersAgree` | backend/src/sync/sync.service.ts:261-310 | no run of requests over given ids reaches a set of transactions that each wait for a row another of them holds, if and only if raw string order does not depend on how those ids spell their rows |
| `SyncDeadlock.CanonicalIdsAgree` | backend/src/sync/sync.service.ts:261-270 | ids in the database's own spelling are safe |
| `SyncDeadlock.UpperCaseIdsDeadlock` | backend/src/sync/sync.service.ts:261-310 | upper-case UUIDs are not: a run of two requests over two rows that ends with each waiting for the other |
| `SyncDeadlock.SomeoneProceeds` | backend/src/sync/sync.service.ts:261-310 | while the orders agree and anything runs, some transaction can take a step other than aborting |
| `ReplayLog.RedisPubSubService.Emit` | backend/src/realtime/board-events.service.ts:26-49 | allocate, append, trim, for an emit that no other overlaps; the frame returned is the one to publish |
| `ReplayLog.RedisPubSubService.GetMissedEvents` | backend/src/realtime/redis-pubsub.service.ts:121-134 | the range read returns the entries above the given number in order |
| `ReplayLog.EmitExtendsWindow` | backend/src/realtime/redis-pubsub.service.ts:82-101 | emits that do not overlap keep the log a gapless window of the newest mutations, up to 500, ending at the counter |
| `ReplayLog.ZAddKeepsAscending` | backend/src/realtime/redis-pubsub.service.ts:91-101 | a late append goes to its place by number and loses nothing |
| `ReplayLog.MissedIsRun` | backend/src/realtime/redis-pubsub.service.ts:121-134 | a read is a consecutive run up to the counter, starting as early as asked or as the log allows |
| `ReplayLog.GapIffRotated` | frontend/src/realtime/boardSocketManager.ts:154-168 | the client's gap test on a fresh answer is true exactly when a missed frame has left the log; otherwise the answer is exactly what was missed |
| `BoardSocket.BoardSocketManager.OnJoined` | frontend/src/realtime/boardSocketManager.ts:131-148 | realign and reload when ahead of the head, ask when behind, else synced |
| `BoardSocket.BoardSocketManager.HandleIncoming` | frontend/src/realtime/boardSocketManager.ts:239-249 | duplicates ignored, gaps turned into a sync request, the next frame applied |
| `BoardSocket.BoardSocketManager.OnSyncResult` | frontend/src/realtime/boardSocketManager.ts:154-177 | the gap test, then each frame at most once |
| `BoardSocket.ConsecutiveBetweenResyncs` | frontend/src/realtime/boardSocketManager.ts:239-255 | a client in sequence hands its listeners consecutive numbers between two reloads |
| `BoardSocket.DeliveredInSequenceIffNoHole` | frontend/src/realtime/boardSocketManager.ts:170-173 | an ascending batch that passes the gap test is delivered in sequence if and only if it has no hole above `lastSeq`; a hole is skipped silently |
| `DeltaSync.StepKeepsInvariant` | frontend/src/realtime/boardSocketManager.ts:131-177 | overlapping and failing emits, expiry, log and head reads, and deliveries in any order keep the protocol invariant, whatever number the client had stored |
| `DeltaSync.InSequenceIffHoleFree` | frontend/src/realtime/boardSocketManager.ts:131-177 | over every run the listeners are served in sequence if and only if no batch that passed the gap test had a hole above `lastSeq` |
| `DeltaSync.DeliveredInOrder` | frontend/src/realtime/boardSocketManager.ts:131-177 | then they get the emitted mutations one after the other between two reloads, each once |
| `DeltaSync.NothingSkipped` | frontend/src/realtime/boardSocketManager.ts:131-177 | and every number up to `lastSeq` was delivered, or lay at or below the head at some reload, or at or below the stored number at the start |
| `DeltaSync.OrderedRunsAreHoleFree` | backend/src/realtime/board-events.service.ts:26-49 | that is so for every run whose emits append in the order of their numbers and none fails |
| `DeltaSync.OverlapSkipsAMutation` | backend/src/realtime/board-events.service.ts:26-49 | it is not for overlapping emits: a run after which the client reports itself synced at 3 with 1 and 3 applied and 2 neither applied nor covered |
| `DeltaSync.SkippedForGood` | frontend/src/realtime/boardSocketManager.ts:239-249 | a number skipped so is never delivered afterwards, short of a reload |
| `DeltaSync.AnswerCatchesUp` | backend/src/realtime/realtime.gateway.ts:146-158 | any sync answer, however late, brings the client at least to where the log ended when it was read |
| `DeltaSync.LostFramesAreRecovered` | frontend/src/realtime/boardSocketManager.ts:239-262 | with no append outstanding, after a lost frame the next one either is applied or triggers a request whose undisturbed answer leaves the client synced at the head |
| `DeltaSync.JoinCatchesUp` | backend/src/realtime/realtime.gateway.ts:113-127 | likewise a join acknowledged with the current head leaves the client at the head or one answer away |
| `BoardReplay.FollowingFramesAreDelivered` | frontend/src/realtime/boardSocketManager.ts:239-255 | frames that follow `lastSeq` are all handed over in order, one by one or in a batch, with no sync request and no reload |
| `BoardReplay.JoinReplaysIff` | frontend/src/realtime/boardSocketManager.ts:131-177 | a join reloads the board exactly if the client is ahead of the server or the log no longer holds all it missed; else it hands over just the missed mutations in order, asking only if there are any |
| `BoardReplay.OrderedLogsAreWindows` | backend/src/realtime/board-events.service.ts:26-49 | the log it is stated for is what every run with appends in order leaves, once all are logged |
| `Outbox.BoardOutbox.EnqueueOutbound` | frontend/src/realtime/boardSocketManager.ts:213-230 | append, persist, and start a drain if connected |
| `Outbox.BoardOutbox.Settle` | frontend/src/realtime/boardSocketManager.ts:264-299 | one awaited flush settles: removed on success, dropped at the cap, otherwise counted and the drain stops |
| `Outbox.OutboxConserves` | frontend/src/realtime/boardSocketManager.ts:213-299 | over every run from any stored queue what left is a prefix of what was stored and enqueued, each flushed once or dropped on exactly its last allowed failure, and the rest is queued in order |
| `Outbox.TriesAreCapped` | frontend/src/realtime/boardSocketManager.ts:264-299 | no item is sent more often than max(1, maxAttempts minus the failures it was stored with) times, and nothing else is sent |
| `Outbox.JoinResumes` | frontend/src/realtime/boardSocketManager.ts:131-148 | a (re)join starts on the oldest queued item, after any run |
| `Outbox.DrainTerminates` | frontend/src/realtime/boardSocketManager.ts:264-299 | from any reachable state a drain left to itself makes at most one call per queued item |
| `OutboxProgress.IdlesOnlyAfterFailure` | frontend/src/realtime/boardSocketManager.ts:213-299 | after any run a filled queue idles on an open link only where a counted failure has just stopped a drain, or between the link coming up and the join |
| `OutboxProgress.DrainGoesOn` | frontend/src/realtime/boardSocketManager.ts:264-299 | a drain takes the items in order, one call each, while its calls succeed or drop their item, and ends only with the queue |
| `OutboxProgress.FailureStopsDrain` | frontend/src/realtime/boardSocketManager.ts:287-294 | any other failure stops it with the item still first and counted once more |
| `OutboxProgress.EnqueueFlushesAll` | frontend/src/realtime/boardSocketManager.ts:213-299 | after any run that left the link up, an enqueue and calls that succeed flush the whole queue in order, with nothing else happening |
| `OutboxProgress.JoinFlushesAll` | frontend/src/realtime/boardSocketManager.ts:131-148 | and so do a reconnect and a join |
| `UploadPool.BackoffGrows` | mobile/src/attachments/AttachmentUploadQueue.ts:229-232 | waits never shrink with further failures and never pass the cap |
| `UploadRetries.BackoffDoubles` | mobile/src/attachments/AttachmentUploadQueue.ts:229-232 | the waits start at the base and double up to the cap |
| `UploadPool.AttachmentUploadQueue.Process` | mobile/src/attachments/AttachmentUploadQueue.ts:135-149 | one drain at a time; a call during a drain asks for another pass |
| `UploadPool.AttachmentUploadQueue.Receive` | mobile/src/attachments/AttachmentUploadQueue.ts:163-193 | the runnable rows are filtered and min(rows, max(1, maxConcurrent)) workers start |
| `UploadPool.AttachmentUploadQueue.Claim` | mobile/src/attachments/AttachmentUploadQueue.ts:169-185 | a worker claims the first unclaimed item not in flight, or retires |
| `UploadPool.AttachmentUploadQueue.UploadSettled` | mobile/src/attachments/AttachmentUploadQueue.ts:196-242 | uploaded, re-queued with backoff, or failed at the attempt cap |
| `UploadRuns.StepKeepsInvariant` | mobile/src/attachments/AttachmentUploadQueue.ts:109-242 | every step of every call keeps claims distinct, attempts accounted for, and calls served |
| `UploadRuns.UploadsAreBoundedAndDistinct` | mobile/src/attachments/AttachmentUploadQueue.ts:160-194 | over every interleaving at most max(1, maxConcurrent) uploads run at once, never two of one item |
| `UploadRuns.AttemptsAreCapped` | mobile/src/attachments/AttachmentUploadQueue.ts:196-242 | since it was last enqueued or retried no item is uploaded more than max(1, maxAttempts) times |
| `UploadRuns.CallsAreServed` | mobile/src/attachments/AttachmentUploadQueue.ts:135-149 | a drain ends only after a pass that began after every call to `process` |
| `UploadRuns.FullPassSendsAll` | mobile/src/attachments/AttachmentUploadQueue.ts:160-194 | a pass that no worker left early sends every listed item |
| `UploadRuns.SentOncePerPass` | mobile/src/attachments/AttachmentUploadQueue.ts:169-190 | and sends none of them twice |
| `UploadProgress.CallsStartPasses` | mobile/src/attachments/AttachmentUploadQueue.ts:135-163 | a call starts a pass or has the current drain take another, and a pass asks for the list unless the device may not upload |
| `UploadProgress.PassTakesWholeListing` | mobile/src/attachments/AttachmentUploadQueue.ts:160-193 | in every reachable state a pass takes on all that was listed, with min(items, max(1, maxConcurrent)) workers |
| `UploadProgress.PassEnds` | mobile/src/attachments/AttachmentUploadQueue.ts:163-194 | a pass ends under every interleaving: until its workers join, they can join or one of them can go on, and they make a bounded number of steps |
| `UploadProgress.ListedItemsAreSent` | mobile/src/attachments/AttachmentUploadQueue.ts:160-194 | when they join, none stopped short, every item of the listing was uploaded in that pass |
| `UploadRetries.RunKeepsExact` | mobile/src/attachments/AttachmentUploadQueue.ts:109-242 | over every run in which no item is enqueued anew while a pass has it in hand, stored attempts are exactly the uploads since it was enqueued or retried |
| `UploadRetries.ParkedOnlyWhenSpent` | mobile/src/attachments/AttachmentUploadQueue.ts:212-227 | then an item is parked only after exactly max(1, maxAttempts) uploads since it was enqueued or retried |
| `UploadRetries.RejectedIsRetriedIff` | mobile/src/attachments/AttachmentUploadQueue.ts:212-242 | a rejected upload is queued for its backoff exactly while attempts are left, else parked |
| `UploadRetries.RejectedIsListedWhenDue` | mobile/src/attachments/AttachmentUploadQueue.ts:212-242 | a rejected item with attempts left is listed exactly from the rejection time plus the backoff on, and not sent before, whatever else happens |
| `UploadRetries.RenewedIsListed` | mobile/src/attachments/AttachmentUploadQueue.ts:94-124 | an enqueued item, or a parked one that is retried, has all its attempts and is due at once |
| `UploadRetries.ResolvedStaysUploaded` | mobile/src/attachments/AttachmentUploadQueue.ts:196-210 | a resolved upload leaves the item uploaded with that url, and it is not sent again unless enqueued anew |
| `UploadRetries.RaceParksEarly` | mobile/src/attachments/AttachmentUploadQueue.ts:94-104 | an item enqueued anew during its last upload is parked by that upload with none since: why the count needs the condition |
| `RemoteMutations.InsertionIndexForKey` | frontend/src/store/remoteMutations.ts:39-51 | the index of the first keyed sibling that sorts after the key, or the end |
| `RemoteMutations.ReconcileRemoteMutation` | frontend/src/store/remoteMutations.ts:53-138 | the patch for each kind of frame, with the same refusals and resyncs |
| `RemoteMutations.FrameKeepsPlaced` | frontend/src/store/remoteMutations.ts:53-138 | no frame duplicates, orphans or invents a card: each known card stands once over all lists |
| `RemoteMutations.MoveKeepsKeysOrdered` | frontend/src/store/remoteMutations.ts:60-100 | after a peer's move the keyed cards of every list still stand in key order, unkeyed ones anywhere between |
| `RemoteMutations.MoveKeepsOthers` | frontend/src/store/remoteMutations.ts:60-100 | all other cards keep their lists, their relative order and their data |
| `RemoteMutations.MoveLandsOnce` | frontend/src/store/remoteMutations.ts:60-100 | the moved card stands once, in the list named, with the frame's key |
| `RemoteMutations.MoveLandsAt` | frontend/src/store/remoteMutations.ts:60-100 | precisely: directly before the first sibling whose key sorts after the frame's, or at the end, with no reload |
| `RemoteMutations.DeletedCardIsGone` | frontend/src/store/remoteMutations.ts:102-113 | a deleted card is in no list and unknown; all other cards keep list, order and data |
| `RemoteMutations.DeletedListIsGone` | frontend/src/store/remoteMutations.ts:115-133 | a deleted list is gone with exactly its cards; the other lists and cards are as they were |
| `RemoteMutations.ResyncIffUnplaceable` | frontend/src/store/remoteMutations.ts:53-138 | a reload is asked for exactly by content frames and by moves that lack a part or name an unknown card or list; these, and deletions of the unknown, change nothing |
| `BoardStore.UseBoardStore.ApplyRemoteMutation` | frontend/src/store/useBoardStore.ts:233-259 | the patch is merged, the resync flag sticks, and a move or delete bumps the card's version |
| `BoardStore.UseBoardStore.BeginMove` | frontend/src/store/useBoardStore.ts:261-318 | the tag, the optimistic relocation with its cleared key, and the neighbours to persist with |
| `BoardStore.UseBoardStore.ConfirmMove` | frontend/src/store/useBoardStore.ts:319-332 | the server's key is stamped only on the latest move of a card that still exists |
| `BoardStore.UseBoardStore.FailMove` | frontend/src/store/useBoardStore.ts:333-371 | the version-guarded rollback of one card |
| `BoardStore.RelocatedCount` | frontend/src/store/useBoardStore.ts:280-299 | relocating a card, splice clamping included, never changes how often any card appears |
| `BoardStore.BeginKeepsPlaced` | frontend/src/store/useBoardStore.ts:261-299 | a local move leaves each card in one place and the others in order |
| `BoardStore.FailKeepsPlaced` | frontend/src/store/useBoardStore.ts:333-371 | so does a rollback, whatever happened in between |
| `BoardStore.RollbackRestores` | frontend/src/store/useBoardStore.ts:261-371 | if nothing touched the board since, a failed move restores lists and cards exactly |
| `BoardStore.BeginKeepsKeysOrdered` | frontend/src/store/useBoardStore.ts:280-299 | the optimistic move keeps keyed cards in order |
| `MoveRoundTrip.BegunCardStands` | frontend/src/store/useBoardStore.ts:280-308 | a begun move puts the card at the index, clamped as `splice` does, among the other cards of the target list, and the neighbours sent to the server are the cards directly around it |
| `MoveRoundTrip.FailedCardReturns` | frontend/src/store/useBoardStore.ts:333-371 | a failure that no later change of the card has overtaken puts it back at its old index, clamped to what its old list holds by then, with its old key |
| `MoveRoundTrip.MoveAgrees` | frontend/src/store/useBoardStore.ts:261-332 | where board and server agree on the other cards, the server mints a key for those neighbours, the confirmed board is in key order, and the server's column is the board's list |
| `BoardKeys.ConfirmKeepsKeysOrderedIff` | frontend/src/store/useBoardStore.ts:319-332 | a confirmed key keeps every list in key order if and only if it fits where the card stands by then |
| `BoardKeys.ConfirmCanBreakOrder` | frontend/src/store/useBoardStore.ts:319-332 | it need not: a peer's card that landed behind the unkeyed card gets the smaller key |
| `BoardKeys.RollbackKeepsKeysOrderedIff` | frontend/src/store/useBoardStore.ts:333-371 | a rollback keeps every list in key order if and only if the restored key fits at the original index of the list as it now is |
| `BoardKeys.RollbackCanBreakOrder` | frontend/src/store/useBoardStore.ts:333-371 | it need not: a peer's move into the list while the card was away |
| `BoardRuns.EveryCardInOnePlace` | frontend/src/store/useBoardStore.ts:233-372 | over every interleaving of moves, confirmations, failures and peer frames each known card stands exactly once, in exactly one list |
| `BoardRuns.LatestIffUntouched` | frontend/src/store/useBoardStore.ts:271-278 | the version guard is exact: it passes if and only if the card exists and was neither moved again nor overridden by a peer |
| `BoardRuns.FailureIsTargeted` | frontend/src/store/useBoardStore.ts:333-371 | a stale failure changes nothing on the board, and any failure only its own card |
| `BoardRuns.UndisturbedFailureRestores` | frontend/src/store/useBoardStore.ts:261-371 | in any run, a move that fails before anything else happens leaves the board as it was |
| `BoardRuns.ConfirmationIsTargeted` | frontend/src/store/useBoardStore.ts:319-332 | over every run a stale confirmation changes nothing, and any other only the key of its card |
| `BoardRuns.DeletedCardStaysGone` | frontend/src/store/useBoardStore.ts:233-259 | a card that a peer deleted does not come back, whatever moves, confirmations and rollbacks follow |
| `BoardRuns.ResyncIffSomeFrameMissed` | frontend/src/store/useBoardStore.ts:233-259 | the board asks for a reload exactly if some frame of the run could not be placed |
| `BoardRuns.LastFailureIsShown` | frontend/src/store/useBoardStore.ts:289-371 | the message on display is that of the last failure, unless a move was shown since |

## Left out

- HTTP controllers, modules, DTO validation, authentication, throttling, metrics, React components and
  drag-and-drop: plumbing or user interface.
- Postgres, row-level security, TypeORM and Redis themselves: a table is a map, row locks are held to the
  end of a transaction, the replay log is a sorted sequence that may be trimmed or expire.
- `FractionalIndexer.compare` and its date parsing: the job and the runs order rows as the database does.
- Counts and target lengths that are not integers, and the rounding of `**` beyond the safe integers.
- `ServerSync.SyncService.Sync`: which row an id names, what `tryInsert` stores and which values pass the parent
  and position checks are parameters, because they depend on the database; an id that the database refuses,
  the board events, and the delta pull by checkpoint with its truncation are not part of this model.
- `ServerSync.Sanitize`: the acceptance checks of single fields are one predicate.
- The gateway's room and socket bookkeeping, the phone coordinator with its `syncing` flag, and the status and network
  listeners.
- `SyncTransactions.RunsAreSerial`: concerns rows that exist; inserts of new ids, web edits outside `/sync` and locks
  other than the per-record ones are not part of this model.
- `SyncProtocol.RunSettlesAcknowledged`: each `getById` and `put` pair of the engine is one step, and ids are in the
  database's spelling; checkpoints, pull completeness and crashes are left out.
- `MobileMerge.MergeLaws`: a record that lacks clocks comes out of a merge with itself with a clock for each field,
  so idempotence is stated for records that have them.
- `CardMoves.MoveLandsInSlot`: stated for a list whose keys are in order, as `CardPlacement.RunKeepsColumn` keeps it.
- `CardPlacement.CardsService.Update`: card contents and the board event that follows.
- `CardPlacement.RunKeepsColumn`: requests run one at a time, as concurrent inserts at one slot may mint equal keys;
  an insert names at least one neighbour.
- `RebalanceJob.PositionRebalanceService.RebalanceOverlongColumns`: the database compares keys byte-wise.
- `DeltaSync.NothingSkipped`: one manager per storage key, and no Redis flush during a session; a stored number
  left over from before a flush is covered.
- `ReplayLog.RedisPubSubService.Emit`: the publish itself; in `DeltaSync` a logged frame may be delivered or lost.
- `Outbox.OutboxConserves`: ids are unique, storage always parses, and a flush callback is configured.
- `UploadRuns.AttemptsAreCapped`: the store never rejects; rows left in `uploading` by a crash are not listed
  again by the source, and resuming them is not modelled. Timers are calls that may come at any time.
- `UploadRetries.RunKeepsExact`: for runs without the race of `UploadRetries.RaceParksEarly`; that a listing does come
  at the due time is the timer's part.
- `OutboxProgress.IdlesOnlyAfterFailure`: that a counted failure is tried again needs another enqueue or join.
- `MoveRoundTrip.MoveAgrees`: for alphabets as in `KeyMinting.ClosedIffPairFree`, and a board that agrees with the
  server on the other cards of the list.
- `BoardRuns.EveryCardInOnePlace`: runs without board hydration and without adding cards; checklists and other
  card contents are one opaque field.
- Two-slot gaps between final rebalanced keys: the nudge can shrink a gap to one, so strict increase and gaps that
  differ by at most three slots are claimed.
- Seed data, migrations, entities, `lwwRegister.ts`, `mapBoard.ts` and `position.service.ts`: thin.
