# Bridge relay replay guard — a Dafny model

This project models the decision core of a cross-chain bridge relay
(`script.py`). The relay watches `TokensDeposited` events on a source chain
and mints the bridged tokens on a destination chain. Its replay protection
rests on three pieces, which are modelled here:

- **`StateDB`** (`state_db.dfy`, module `StateStore`): the list of source
  transaction hashes already relayed. `is_processed` is membership;
  `mark_as_processed` appends a new hash and saves the list, and does nothing
  for a hash already present. It is a class with a `seq<string>` field. A
  ghost field holds the content of the state file, so the model can state
  that a restart would load exactly the list held in memory.
- **`EventProcessor.process_event`** (`event_processor.dfy`, module
  `EventProcessing`): the validation decision. The checks run in this order:
  hash already processed, then destination chain id mismatch, then a missing
  or falsy recipient or amount. An accepted event yields a payload that
  carries the event's own recipient, amount and transaction hash. `Decide` is
  the decision as a function; `Skip(reason)` stands for `None` together with
  the log line that explains it. `EventProcessor.ProcessEvent` is the method,
  and it only reads the state DB.
- **`TransactionBroadcaster.broadcast`** (`broadcaster.dfy`, module
  `Broadcasting`): the library calls are abstracted into a `BroadcastRun`
  that records what they did. In simulate mode the result is the signed
  transaction's hash, and nothing is submitted. Otherwise the result is the
  submitted hash when the receipt status is 1. Any exception yields `None`.
- **One pass of `BridgeContractListener.run`** (`listener.dfy`, module
  `BridgeListener`): for each new event, the pass applies the
  confirmation-depth gate, validates the event, broadcasts it, and records
  the source hash only when the broadcast returned a hash.
  `ProcessNewEntries` is the loop. It is proved to compute `Pass`, a fold of
  `Step` over the events. The lemmas about `Pass` state the replay protection.
  The keys recorded in a pass are distinct, and none was recorded before.
  A hash already recorded is never broadcast again, in this pass or a later
  one. A key is recorded only after a successful broadcast. An event is
  skipped as already processed only if its own transaction was relayed.

Hashes are compared as the text `HexBytes.hex()` returns, which is `"0x"` and
then two lower-case hex digits per byte (`hex_keys.dfy`). This is the form
produced by the `hexbytes` releases that web3 v6 uses. The code targets web3
v6: it imports `geth_poa_middleware`, which v7 removed, and it uses the
snake_case API (`is_connected`, `to_checksum_address`) that v6 introduced. `KeyInjective` proves that two hashes
share this text only when they are the same hash. So the text-based guard
behaves exactly like a guard on the hash bytes.

The idempotency key is the transaction hash alone (`script.py:156`,
`script.py:314`). It is not the pair of transaction hash and log index.
`SameTransactionRelayedOnce` states the consequence: once one deposit of a
transaction has been relayed, any later deposit of the same transaction in
the pass is skipped as already processed.

An event that the gate leaves as too recent is simply passed over
(`script.py:305-307`). The pass keeps no cursor and nothing else about it.
The events come from `get_new_entries` (`script.py:300`), which returns only
the logs that arrived since the previous poll. So the process never sees a
passed-over event again: the gate drops events rather than delaying them.
The filter starts at the latest block (`script.py:287`), the listener polls
every 10 seconds, and the default depth is 6 blocks (`script.py:270`). Most
deposits are therefore still too recent when first seen, and they are never
relayed. See "## Findings".

The broadcast oracle is a parameter `network: nat -> BroadcastRun`.
`network(k)` is what the library calls do if the k-th event of the batch is
broadcast. The latest block number is also a parameter of the pass.

## Model

| member | source | states |
|---|---|---|
| HexKeys.Hex | script.py:156 | the hex text has two digits per byte, each one of `0-9a-f` |
| HexKeys.Key | script.py:156 | the stored key is `"0x"` followed by the hex text of the hash |
| HexKeys.HexInjective | script.py:156 | distinct byte strings have distinct hex text |
| HexKeys.KeyInjective | script.py:314 | two hashes share a key exactly when they are equal, so the key recorded after a relay is the key that process_event looks up |
| StateStore.Loaded | script.py:74-84 | `_load` gives the stored list; a missing file, an unreadable file or an absent key gives the empty list |
| StateStore.LoadAfterSave | script.py:86-90 | loading the file `_save` wrote gives back exactly the saved list |
| StateStore.StateDB.constructor | script.py:70-72 | the list starts as what `_load` reads from the state file, so a restart reloads the file's list |
| StateStore.StateDB.IsProcessed | script.py:94-96 | the answer is exactly membership of the hash in the recorded list |
| StateStore.StateDB.MarkAsProcessed | script.py:98-103 | the new list is `Marked(old list, h)`; the file is rewritten with the new list exactly when h was new and is otherwise untouched; the file then loads back the list held in memory |
| StateStore.Marked | script.py:98-102 | after marking, h is recorded and nothing else is added; a hash already present leaves the list unchanged; the old entries keep their place and order; a new h goes at the end; no duplicates are introduced |
| StateStore.MarkedIdempotent | script.py:100 | marking the same hash twice equals marking it once |
| StateStore.OccursOnce | script.py:94-101 | in a list without duplicates, a recorded hash occurs exactly once |
| StateStore.MarkedOccursOnce | script.py:98-102 | after marking h in a list without duplicates, h occurs exactly once |
| EventProcessing.Decide | script.py:151-187 | an already processed hash is skipped before any other check; an event is accepted iff its hash is new, its chain id equals the configured one, and recipient and amount are truthy; `process_event`'s return value (`ToOption`) is None exactly when one of those conditions fails; the payload carries the event's own recipient, amount (non-zero) and hash |
| EventProcessing.OtherChainSkipped | script.py:166-168 | a differing or absent destination chain id is skipped, as already processed if the hash is recorded, else as another chain's event |
| EventProcessing.MissingArgumentsSkipped | script.py:170-175 | a missing or empty recipient, or a missing or zero amount, is rejected |
| EventProcessing.DecideUnderMoreHashes | script.py:156-159 | recording more hashes can only turn a decision into an already-processed skip |
| EventProcessing.SameTransactionSameGuard | script.py:156-159 | the guard looks at the transaction hash alone, so events of one transaction are skipped together |
| EventProcessing.GuardIsExact | script.py:156-159 | an event is never skipped as already processed because of another transaction's hash |
| EventProcessing.EventProcessor.constructor | script.py:147-149 | the processor holds the given state DB and destination chain id |
| EventProcessing.EventProcessor.ProcessEvent | script.py:151-187 | the method returns `Decide` on the current state DB contents and changes nothing |
| Broadcasting.Broadcaster.Broadcast | script.py:218-261 | simulate mode returns the signed hash iff signing succeeded; otherwise a hash is returned iff the transaction was mined with status 1, and it is the submitted hash; every result starts with `0x` |
| Broadcasting.ReturnedHashIsTruthy | script.py:242-254 | a returned hash is never empty, so it always passes the caller's truthiness test |
| Broadcasting.SimulationIgnoresSubmission | script.py:242-245 | in simulate mode the outcome after signing has no bearing on the result |
| Broadcasting.RealSuccessNeedsReceipt | script.py:246-257 | a real broadcast succeeds only after submission and a receipt with status 1 |
| BridgeListener.TooRecentAt | script.py:304-305 | only an event with a non-zero block number can be too recent, and none is once the head is `confirmation_blocks` past its block |
| BridgeListener.Step | script.py:304-315 | one event: it ends as too recent exactly when the gate holds; it is broadcast exactly when it passes the gate and validation; the list grows only by the relayed event's own key, which was not recorded before |
| BridgeListener.StepOnRecorded | script.py:156-159 | a step on an event whose hash is recorded neither broadcasts nor records |
| BridgeListener.Pass | script.py:302-315 | a pass gives one outcome per event; the recorded list becomes the old list followed by the relayed keys, in order |
| BridgeListener.GateDecidesTooRecent | script.py:302-307 | an event is left as too recent iff it has a non-zero block number fewer than confirmation_blocks below the latest block; such an event is never broadcast |
| BridgeListener.RelayedOnlyAfterSuccess | script.py:309-315 | a relayed event passed the gate and validation; the broadcast returned its destination hash; its own hash is the recorded key |
| BridgeListener.RecordedOnlyAfterSuccess | script.py:309-315 | every hash the pass records belongs to an event that passed the gate and validation and whose broadcast returned a hash |
| BridgeListener.SuccessIsRelayed | script.py:309-315 | an accepted event whose broadcast returns a hash is relayed under its own key |
| BridgeListener.NoReplayInPass | script.py:302-315 | the keys recorded in one pass are distinct, and none was recorded before the pass |
| BridgeListener.PassKeepsNoDuplicates | script.py:302-315 | a list without duplicates stays without duplicates across a pass |
| BridgeListener.RecordedNeverBroadcast | script.py:309-311 | an event whose hash was recorded before the pass is never broadcast in it |
| BridgeListener.SameTransactionRelayedOnce | script.py:309-315 | after one event is relayed, later events of the same transaction (any log index) are skipped as already processed |
| BridgeListener.AlreadyProcessedMeansSameTransaction | script.py:156-159 | an event is skipped as already processed only if its hash was recorded before or an earlier event of the same transaction was relayed |
| BridgeListener.NoReplayAcrossPasses | script.py:297-317 | a later pass never relays a key relayed by an earlier pass |
| BridgeListener.SimulatedStep | script.py:242-245 | in simulate mode an accepted event is relayed under its signed hash iff signing succeeded, and its key is appended |
| BridgeListener.FreshDepositDropped | script.py:302-307 | with the default depth, a deposit seen while its block is the latest leaves the pass as too recent, with nothing recorded and nothing kept |
| BridgeListener.Deferred | script.py:302-307 | the events kept for the next poll are exactly those the gate held back |
| BridgeListener.DeferredEventIsRetried | script.py:302-307 | every deferred event has a block number, and when the deferred events are polled again, each one is not held back once the head is the depth past its own block |
| BridgeListener.BridgeContractListener.constructor | script.py:268-277 | the listener holds its processor, broadcaster and confirmation depth |
| BridgeListener.BridgeContractListener.HandleEvent | script.py:302-315 | handling one event changes the list and returns the outcome exactly as `Step` says; the file is rewritten with the new list when the list changed, otherwise untouched |
| BridgeListener.BridgeContractListener.ProcessNewEntries | script.py:298-315 | the batch loop computes `Pass` from the old list; when it changes the list the file holds the new list, otherwise the file is untouched; a file that loaded back the list before still does |

## Findings

| source | as written | input that shows it | evidently intended | confidence | as-written member | corrected member |
|---|---|---|---|---|---|---|
| script.py:302-307 | an event that is too recent is skipped with `continue`, and nothing keeps it; the filter (`script.py:300`) returns only logs new since the last poll, so the event is never seen again | a deposit in block 100 returned while the latest block is 100, with the default depth 6 | wait for confirmations, as the log line at `script.py:306` says: keep the event and handle it once the head is 6 blocks past it | not executed; rests on the new-entries-only semantics of the node's log filter | BridgeListener.FreshDepositDropped | BridgeListener.DeferredEventIsRetried |

`BridgeContractListener.ProcessNewEntries` keeps the gate as written, since it
models `script.py`. `Deferred` and `DeferredEventIsRetried` state the
intended behaviour beside it. The events held back are carried into the next
poll ahead of the new entries. Each of them is handled once the head is the
depth past its own block. That block can be later than the head read at the
earlier poll, because `script.py:299` reads the head before `script.py:300`
fetches the entries, so a deposit mined in between comes back with a newer
block.

## Left out

- `ChainConnector` (`script.py:105-141`) is not part of this model. It is RPC connection set-up with retries and sleeps, plus contract lookup.
- `TransactionBroadcaster.get_gas_price_from_api` (`script.py:203-216`) is not part of this model. It is an HTTP call and a float conversion.
- Nonce fetch, gas price, transaction building, signing, `send_raw_transaction` and `wait_for_transaction_receipt` are not modelled (`script.py:224-251`). Only what they did reaches the model, as a `BroadcastRun`. The fixed gas limit of 200000 and the 120-second receipt timeout occur only inside those calls.
- `StateDB._load` and `_save` do file and JSON I/O. `_load` is modelled only through its result (`StateFile`). Three shapes of stored value are not modelled: a JSON document that is not an object, a list that holds non-strings, and a `processed_hashes` value that is not a list. A `null` value would make `is_processed` raise `TypeError`. A string value would turn `in` into a substring test. `_save` is modelled as always writing the list; an `IOError` while saving, which the source logs and ignores, is not modelled.
- The thread, `stop_event`, `time.sleep`, the re-creation of the filter on `BlockNotFound`, and the catch-all exception handler of `run` (`script.py:263-325`) are not modelled. They concern timing and concurrency. An exception inside the loop would end the batch early. A log entry without `transactionHash` or `args` would raise one. Such entries are not modelled: every `DepositEvent` has both.
- `main` (`script.py:327-389`) is not modelled. It covers configuration from environment variables and process start-up.
- Logging is not modelled, except that each `SkipReason` and `EventOutcome` names the case that was logged.
- Event arguments that the relay never reads (`sender`, `nonce`) are not modelled. `amount` is a `nat`, since the ABI declares it `uint256`.
- Relays of this kind often key on the pair of transaction hash and log index. They often also keep a scan cursor, roll back on a reorg, keep pending and failed records, retry failed submissions, and track nonces locally. `script.py` has none of these, so the model has none either.
