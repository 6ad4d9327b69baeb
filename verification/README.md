# Bitmark Explorer: what its index, ledger and notifications keep

A model of the parts of the explorer that carry its data, and proofs about them in Dafny 4.11.

- **The indexer** writes four keyed tables (blocks, transactions, inputs, outputs) from the node's blocks. `Chain.dfy` gives the node's data, valid chains and the plain UTXO semantics, which know nothing of the tables. `Index.dfy` gives the effect of each write and proves that the tables are the join of that semantics with the rows of the chain. `Refinement.dfy`, `Balances.dfy` and `Conservation.dfy` draw the consequences: spent pointers and inputs correspond one to one, replay has no effect, value is conserved. `Columns.dfy` says what every column holds in terms of the chain alone. `Indexer.dfy` has the statements, batches, checkpoint and run loop as imperative code against an oracle of failures.
- **The address page** (`Ledger.dfy`) computes a balance in two ways; they agree because of what the writer keeps.
- **The backfill** (`Backfill.dfy`, `Repair.dfy`, `Base58.dfy`) decodes addresses for old rows; it commutes with ingestion and can be interrupted anywhere.
- **Reward inversion** (`Reward.dfy`), **money conversion** (`Money.dfy`), the **notification pipeline** (`Pipeline.dfy`), the **RPC breaker** (`Breaker.dfy`), the **block page under concurrent commits** (`BlockPage.dfy`) and **paging** (`Paging.dfy`).
- `Sums.dfy` has sums over maps, the meaning of SQL SUM; `Options.dfy`, `Reals.dfy` and `Faults.dfy` are shared.

## How the environment is modelled

- Every call to the node or to PostgreSQL takes one tick of an oracle that says whether it fails (`Faults.dfy`). Statements hold for every oracle. A COMMIT that reports an error may or may not have taken effect. A failed statement aborts its SQL transaction, so every later statement of it fails, which is PostgreSQL's rule.
- An SQL transaction works on a copy of the tables that COMMIT installs. Tables are maps from their unique keys (`database/schema.sql:68`, `114`, `145`, and the unique block hash) to rows.
- The node's chain only grows, since the indexer has no code for reorganisations: `chain` in `Indexer.Ingestor` is the chain as it will ever be, and each call sees some prefix of it.
- A valid chain (`Chain.ValidChain`): block i has height i; block hashes and txids are unique; a coinbase transaction has the coinbase input alone; every other input names an output of an earlier transaction, possibly of the same block, that nothing has spent; output numbers within a transaction differ; amounts are not negative.
- The result of a query is a parameter constrained by what the query says (which rows, in what order). Clocks and SHA-256 are parameters too; SHA-256 is any function to 32 bytes.
- Integers are unbounded; int64 overflow of sums is not modelled. Amounts in the chain are base units, what `coinToBaseUnits` gives (`Money.dfy`). float64 is real arithmetic, except in `Money.dfy`, where both roundings have an explicit error.

## Where code and documentation disagree

The model follows the code.

- `generator/internal/db/addressdetail.go:8-9` promises nil for an address without transactions; the code also returns nil for an address whose outputs are all worth nothing and unspent (`Ledger.PageMissingExactly`).
- `generator/cmd/bitmark-hp-gen/main.go:187-190` says the first failure is retried at once; the counter is incremented before it indexes the table, so it waits 5 seconds (`Breaker.EveryFailureWaits`).
- `indexer/internal/ingest/algo_stats.go:102` says the factor is clamped to [0, 1]; with a positive peak a negative hashrate is not clamped (`Reward.EsfNotClamped`, and exactly then by `Reward.EsfClampedExactly`).
- `generator/internal/render/homepage.go:33` says next page 0 means none; the page on disk always says 2 (`BlockPage.StaticHomePage`).
- `indexer/cmd/backfill-addresses/main.go:154-174` does not ask whether the result stream broke off, so its first phase can report success with rows left over (`Backfill.RowLeftOver`, and exactly when by `Backfill.CompleteExactly`); running the tool again completes it (`Repair.Resumable`).

## Model

| member | source | states |
|---|---|---|
| Indexer.SqlTx.InsertInputRows | indexer/internal/ingest/ingestor.go:344-378 | Inserting one transaction's input rows succeeds exactly when no statement fails, and then every absent (txid, vin) has the coinbase row or the row naming the previous output, with no value yet; rows already there are kept. |
| Indexer.SqlTx.InsertOutputRows | indexer/internal/ingest/ingestor.go:380-402 | The same for output rows: absent (txid, vout) keys get an unspent row, present ones are untouched. |
| Indexer.SqlTx.LinkInputs | indexer/internal/ingest/ingestor.go:404-438 | On success each input carries what the lookup found and the named output is marked spent by it. Although the lookup's error is ignored, the method never succeeds after one: the failed SQL transaction refuses the next statement, and the error reported is that of the last call made. |
| Indexer.SqlTx.InsertTransaction | indexer/internal/ingest/ingestor.go:316-438 | One transaction of a bundle: row, inputs, outputs, then links unless it is a coinbase; success exactly when no call failed. |
| Indexer.SqlTx.InsertBlockBundle | indexer/internal/ingest/ingestor.go:257-442 | A bundle is written whole or reported as failed: no error exactly when no statement failed, and then the four tables are the indexed block on top of what was there. |
| Index.LinkEffect | indexer/internal/ingest/ingestor.go:404-438 | Linking a transaction whose inputs all name existing outputs fills exactly its own inputs, marks exactly those outputs, and changes no other row or column. |
| Index.InsertRowsJoins | indexer/internal/ingest/ingestor.go:324-402 | For the next transaction of a valid history the inserts add exactly its rows and keep every earlier row. |
| Index.IndexTxJoins | indexer/internal/ingest/ingestor.go:316-438 | Writing one more valid transaction turns the UTXO join of the history into the UTXO join of the longer history, also when it spends an output of the same block. |
| Index.IndexIsJoin | indexer/internal/ingest/ingestor.go:257-442 | For every valid chain, block-by-block ingestion leaves exactly the join of the plain UTXO semantics (outputs created, who spends them) with the rows of the chain. |
| Columns.BlockColumns | indexer/internal/ingest/ingestor.go:257-311 | In every committed index a block's row carries its height, its previous hash (NULL if blank), and as tx_count the number of its transactions, which is the number of transaction rows with its hash. |
| Columns.TxColumns | indexer/internal/ingest/ingestor.go:316-342 | A transaction's row carries the hash and height of its block, its position in it, whether its first input is a coinbase, and the sum of its outputs by position. |
| Columns.InColumns | indexer/internal/ingest/ingestor.go:344-427 | An input's row is the coinbase row with its text, or carries the script, sequence, named output, and the value and address of an output of an earlier transaction in the chain. |
| Columns.OutColumns | indexer/internal/ingest/ingestor.go:380-438 | An output's row carries its value, script and address as the chain has them, and as spender exactly the input in the chain, if any, that names it, with that block's height. |
| Columns.OnlyOutputs | indexer/internal/ingest/ingestor.go:380-402 | There is an output row for every output of the indexed blocks and for nothing else; OnlyInputs, OnlyTxs and OnlyBlocks say the same of the other tables. |
| Columns.SpendingValid | indexer/internal/ingest/ingestor.go:404-438 | A concrete valid chain with a spend from an earlier block and one within the block, and the pointers and copied values in its index. |
| Index.LinkMissing | indexer/internal/ingest/ingestor.go:404-438 | An input that names nothing is left alone; one that names an output that is not there gets value 0 and no address, and marks nothing. |
| Refinement.UtxoRefinement | indexer/internal/ingest/ingestor.go:380-438 | In every reachable index: output rows are exactly the outputs created; spent pointers (txid, vin, height) and non-coinbase input rows are in one-to-one correspondence; each such input carries the value and address of the output it spends; an output is unspent exactly when no input row names it. |
| Refinement.Replay | indexer/internal/ingest/ingestor.go:284-438 | Indexing any already indexed block again, not only the latest, changes none of the four tables, even if other addresses are reported for its outputs; no later spend is cleared. |
| Refinement.SettledNoOp | indexer/internal/ingest/ingestor.go:324-438 | A transaction whose rows exist and whose links are in place is written again without effect. |
| Refinement.JoinSettled | indexer/internal/ingest/ingestor.go:404-438 | However long a valid history has grown, every one of its transactions is in that settled state. |
| Balances.UtxoStep | indexer/internal/ingest/ingestor.go:380-438 | The unspent total of an address, or of everyone, moves by exactly what a transaction pays to it less what it spends of it. |
| Conservation.ValueConserved | indexer/internal/ingest/ingestor.go:319-322 | In every committed state the unspent value equals what coinbases issued less what all other transactions took in and did not put out, all read from the tables. |
| Conservation.BlockTotals | indexer/internal/ingest/ingestor.go:260-265 | At every later time a block's total_out equals the sum of its transactions' total_out and the sum of its output rows. |
| Conservation.OutsTotal | indexer/internal/ingest/ingestor.go:319-322 | A transaction's total_out is the sum over its distinct output rows. |
| Indexer.Ingestor.EnsureChainState | indexer/internal/ingest/ingestor.go:444-450 | The checkpoint row exists afterwards unless the statement failed: an existing one is kept, a new one has height -1 and 64 zeros. |
| Indexer.Ingestor.IndexBlocks | indexer/internal/ingest/ingestor.go:217-240 | Inside the open transaction, with no failure, blocks lo to hi are indexed in order and the last height and hash are those of block hi. |
| Indexer.Ingestor.IngestBatch | indexer/internal/ingest/ingestor.go:211-252 | The committed database holds either the blocks it had or all of the batch, checkpoint included, even when COMMIT reports an error after taking effect; success exactly when nothing failed, and otherwise the error of the last call made. |
| Indexer.Ingestor.IngestRange | indexer/internal/ingest/ingestor.go:190-255 | For every batch size and failure pattern the committed tables stay those of a whole number of blocks with a matching checkpoint, never beyond the requested end. The batches tried are the consecutive runs of exactly that size, the last cut off at the end; only the last may have failed, and its error is the one reported; with no failure the end is reached. |
| Indexer.Ingestor.GetBlockCount | indexer/internal/ingest/ingestor.go:43-65 | The poll ends with the first try that did not fail transiently, with its height or its error, or with a cancellation during a pause; the pauses and tries are counted call by call. |
| Indexer.Ingestor.Run | indexer/internal/ingest/ingestor.go:82-188 | Over any number of turns, failures, retries and growth of the tip, the invariant holds, the height never falls and never passes a height the node reported. A transient error while blocks are fetched and indexed never ends the run; every other error of a turn, but what is not a cancellation in the wait, ends it there, without another poll, and is reported; unless one does, all turns are made. A last turn without failure has indexed up to the tip it was told of. |
| Indexer.Ingestor.Turn | indexer/internal/ingest/ingestor.go:106-187 | One turn goes on exactly if no call failed, or the range failed transiently, or the wait ended with anything but a cancellation; a range is ingested exactly when the tip reported is above the height, and without error reaches it. |
| Indexer.Ingestor.Open | indexer/internal/ingest/ingestor.go:82-104 | A restart: a new process, with any batch size, over the tables and checkpoint that earlier ones committed satisfies the invariant. |
| Indexer.CommittedState | indexer/internal/ingest/ingestor.go:190-255 | Two indexers on the same chain, whatever happened to them: each holds the UTXO join of its blocks, best_hash is the hash of the block at best_height, and equal heights mean equal databases. |
| Money.ConversionExact | indexer/internal/ingest/ingestor.go:531-533 | With the parsed amount and the product each within relative error 2^-53, every amount of k base units of magnitude below 2^51 converts to exactly k, for every factor. |
| Money.RoundIs | indexer/internal/ingest/ingestor.go:531-533 | Rounding gives the nearest integer and, of two, the one farther from zero. |
| Money.ConversionFails | indexer/internal/ingest/ingestor.go:531-533 | Above the bound the cited line does fail: for 3355456378454933 base units, between 2^51 and 2^52, the nearest float64 quotient and the nearest float64 product give one unit too many. |
| Money.TxTotalExact | indexer/internal/ingest/ingestor.go:319-322 | A transaction's total_out is the exact sum of its amounts when each is below 2^51 base units. |
| Money.BlockTotalExact | indexer/internal/ingest/ingestor.go:260-265 | A block's total_out is the exact sum over its transactions, under the same bound on each amount. |
| Ledger.AddressDetail | generator/internal/db/addressdetail.go:12-101 | With each of the three queries succeeding or failing and seeing its own state: failure exactly as the source reports it, a failed input count read as none, the page missing exactly for a blank query or when the summary is zero and no input row was counted; otherwise the summary of the first state and one row per history row that scanned, with the running sum of those. |
| Ledger.KeptRows | generator/internal/db/addressdetail.go:86-97 | Every row that scanned is shown, and only those, in order. |
| Ledger.PaddedAddress | generator/internal/db/addressdetail.go:13-16 | An address with blanks, tabs or line ends around it finds the page of the address. |
| Ledger.SkippedRows | generator/internal/db/addressdetail.go:85-97 | The last balance shown differs from the sum of the rows delivered by exactly the net amounts of the rows that did not scan. |
| Ledger.DeliveredRows | generator/internal/db/addressdetail.go:48-97 | With no row skipped, the rows delivered, all or the first part, are shown as in the complete history, each with the balance it has there. |
| Ledger.RunningIsUtxo | generator/internal/db/addressdetail.go:53-97 | The balance shown on a history row equals the address's UTXO balance just after that row's transaction. |
| Ledger.SummaryIsUtxo | generator/internal/db/addressdetail.go:22-45 | Received less spent, from spent pointers, is the UTXO balance of the indexed history. |
| Ledger.SummaryHalves | generator/internal/db/addressdetail.go:22-45 | Received is everything the chain's transactions ever paid to the address, and sent everything of it they ever spent, each on its own. |
| Ledger.LedgerAgrees | generator/internal/db/addressdetail.go:20-97 | For every valid chain, address and history, each row shows the UTXO balance at its transaction, which is never negative, and the last row equals the balance computed from spent pointers when both queries see the same committed state. |
| Ledger.PageMissingExactly | generator/internal/db/addressdetail.go:34-43 | An address with no transactions has no page; the promised converse fails exactly for an address holding only worthless, unspent outputs. |
| Ledger.DustExists | generator/internal/db/addressdetail.go:34-43 | A valid one-block chain with such an address. |
| Chain.TrimBlank | indexer/internal/ingest/ingestor.go:535-540 | A string is stored as NULL exactly when trimming it leaves nothing. |
| Chain.SpacesAre | indexer/internal/ingest/ingestor.go:535-540 | White space is the 25 characters of the Unicode property and no others. |
| Base58.Base58Check | indexer/cmd/backfill-addresses/main.go:32-60 | The encoder loop, leading-zero loop and in-place reversal produce the big-endian base-58 text of the 25 bytes with one '1' per leading zero byte. |
| Base58.Reverse | indexer/cmd/backfill-addresses/main.go:56-58 | Swapping from both ends reverses the text. |
| Base58.ConvertRoundTrip | indexer/cmd/backfill-addresses/main.go:41-58 | Changing base keeps the number, and changing back returns every digit string, leading zeros included, between any two bases. |
| Base58.AlphabetIs | indexer/cmd/backfill-addresses/main.go:30 | 58 characters in rising order: the digits but 0, the capitals but I and O, the small letters but l. |
| Base58.EncodeRoundTrip | indexer/cmd/backfill-addresses/main.go:41-58 | Decoding an encoding returns the bytes, for every length; leading '1' characters match leading zero bytes one for one. |
| Base58.AddressShape | indexer/cmd/backfill-addresses/main.go:24-60 | For every hash and every checksum, version 85 gives 34 characters starting with 'b' and version 5 gives 34 starting with '3'. |
| Base58.AddressChecks | indexer/cmd/backfill-addresses/main.go:32-60 | An address decodes to 25 bytes: the version, the hash, and the first four bytes of the double SHA-256 of these 21. |
| Base58.AddressDeterminesScript | indexer/cmd/backfill-addresses/main.go:63-81 | Two scripts that decode to the same address have the same type and the same bytes, whatever the hash function does. |
| Base58.ScriptParts | indexer/cmd/backfill-addresses/main.go:63-81 | A script with an address is exactly the P2PKH or P2SH form around its 20-byte hash. |
| Base58.AddressExactly | indexer/cmd/backfill-addresses/main.go:63-81 | A script has an address exactly if its hex text, in either case, spells one of the two forms and its type is that form's. |
| Base58.ScriptAddress | indexer/cmd/backfill-addresses/main.go:63-81 | The address of a script of type pubkeyhash or scripthash in its form is that of its hash in version 85 or 5. |
| Base58.HexDecodes | indexer/cmd/backfill-addresses/main.go:64-67 | A text decodes to exactly the bytes its digit pairs spell, upper or lower case, and to nothing if it spells none. |
| Backfill.Tool.Flush | indexer/cmd/backfill-addresses/main.go:128-152 | A batch is applied whole or not at all, also when COMMIT's outcome is unknown; rows done before stay done. |
| Backfill.Tool.BackfillOutputAddresses | indexer/cmd/backfill-addresses/main.go:112-175 | For any batch size, row order and failure, the SELECT's included: each output row is as before or filled, rows the stream did not deliver are as before, and success, exactly when no call failed, means that exactly the delivered rows are filled. Batches have exactly the batch size but for the last, and every batch but the last stays done. |
| Backfill.CompleteExactly | indexer/cmd/backfill-addresses/main.go:125-174 | A successful first phase has filled every row exactly when every candidate whose script has an address was delivered. |
| Backfill.RowLeftOver | indexer/cmd/backfill-addresses/main.go:154-174 | A table of one candidate, for which a stream that broke off at once makes success leave the row unfilled. |
| Backfill.Tool.BackfillInputAddresses | indexer/cmd/backfill-addresses/main.go:177-195 | One UPDATE: every eligible input takes the value and address of its output, or nothing changes. |
| Backfill.InputFilled | indexer/cmd/backfill-addresses/main.go:177-195 | An input row takes the value and address of the output it names exactly if it is no coinbase, lacks one of the two, and that output has an address; no other column changes. |
| Backfill.Tool.BackfillAll | indexer/cmd/backfill-addresses/main.go:83-110 | Both phases in order; the second runs only if the first reported no error; any stop leaves a resumable state; success is the whole fill when every candidate with an address was delivered. |
| Repair.BackfillCommutes | indexer/cmd/backfill-addresses/main.go:112-195 | Backfilling the index of any valid chain equals indexing the chain with decoded addresses in place of missing ones, in all four tables. |
| Repair.BackfillThenIngest | indexer/cmd/backfill-addresses/main.go:112-195 | Ingestion may continue after the backfill: the result equals ingesting the filled chain from the start. |
| Repair.Resumable | indexer/cmd/backfill-addresses/main.go:125-194 | From whatever state an interrupted or cut-short run leaves, running again ends where an uninterrupted run ends, and one more run changes nothing. |
| Repair.FillRowIs | indexer/cmd/backfill-addresses/main.go:112-123 | Selecting, decoding and updating a stored row gives the row that ingestion would have written with the decoded address. |
| Repair.BackfilledOutput | indexer/cmd/backfill-addresses/main.go:112-175 | After the backfill an output row has the address the node gave, or else the version 85 or 5 address of its script's hash exactly if its script spells one of the two forms; no other column changes. |
| Repair.BackfilledInput | indexer/cmd/backfill-addresses/main.go:177-195 | After the backfill every input row that spends an output carries that output's value and address. |
| Reward.BuildEpochs | indexer/internal/ingest/algo_stats.go:91-100 | The loop ends with exactly 49 entries, entry 2k being 20/2^k and entry 2k+1 being 15/2^k. |
| Reward.ScheduleIs | indexer/internal/ingest/algo_stats.go:89-100 | The schedule starts with 20 and 15 and halves every second entry. |
| Reward.ScheduleEnds | indexer/internal/ingest/algo_stats.go:92-93 | The schedule crosses 1e-6 between entries 48 and 49. |
| Reward.EntriesFall | indexer/internal/ingest/algo_stats.go:92-100 | The schedule is strictly decreasing. |
| Reward.NominalEpochReward | indexer/internal/ingest/algo_stats.go:88-125 | The result is a nearest entry of the whole table, the larger one on a tie, to the inverted reward written out: twice the block reward without a peak, 2 r peak / (peak + hashrate) up to the peak, the block reward beyond it, 0 from minus the peak down. |
| Reward.EsfIs | indexer/internal/ingest/algo_stats.go:102-109 | The factor times the peak is the hashrate up to the peak, the factor is 1 beyond it, and 0 without a peak. |
| Reward.NearestIsBetween | indexer/internal/ingest/algo_stats.go:117-124 | Entry b is chosen exactly when the inverted reward lies from the midpoint below, included, to the midpoint above, excluded. |
| Reward.RewardMonotone | indexer/internal/ingest/algo_stats.go:102-124 | For fixed hashrate and peak, a larger block reward never gives a smaller epoch. |
| Reward.RewardInverts | indexer/internal/ingest/algo_stats.go:75-124 | For every epoch, hashrate and peak, a block reward within one eighth of what the epoch pays, e (peak + hashrate) / (2 peak) up to the peak, e beyond it, e / 2 without a peak, yields that epoch. |
| Reward.EsfClampedExactly | indexer/internal/ingest/algo_stats.go:102-109 | The factor is within [0, 1], as promised, exactly when the peak is not positive or the hashrate is not negative. |
| Reward.EsfNotClamped | indexer/internal/ingest/algo_stats.go:102-109 | For hashrate -1 and peak 2 the factor is -1/2. |
| Reward.DivisorVanishes | indexer/internal/ingest/algo_stats.go:111-124 | The division is skipped exactly when the peak is positive and the hashrate is at most its negative; the result is then the smallest entry. |
| Reward.ToleranceTight | indexer/internal/ingest/algo_stats.go:117-124 | One eighth cannot be improved for the even entries: on it the entry is kept, beyond it the next is chosen. |
| Pipeline.Broker.Broadcast | generator/internal/sse/broker.go:37-46 | Every connected client is offered the event once whatever the order of the map walk; a full channel stays full; no client is added or lost. |
| Pipeline.Broker.Subscribe | generator/internal/sse/broker.go:86-92 | A new client starts with an empty channel; the others are unchanged. |
| Pipeline.Broker.Unsubscribe | generator/internal/sse/broker.go:94-98 | The client is gone; the others are unchanged. |
| Pipeline.OffersAreBroadcast | generator/internal/sse/broker.go:40-45 | The single turns of the broadcast loop, in any order, do to the clients what the broadcast promises. |
| Pipeline.StepKeeps | generator/cmd/bitmark-hp-gen/main.go:87-176 | Every step of notification, main loop, broker and client keeps the invariant: with an empty blockCh the generation in hand covers every notification, and a client with nothing pending has the latest publication. |
| Pipeline.NoLostWakeup | generator/cmd/bitmark-hp-gen/main.go:87-151 | In every run, when the main loop is idle and blockCh is empty, a client with an empty channel has been sent an event when the last generation over had begun after the last notification of the run, or nothing was broadcast and nothing arrived since it subscribed; events sent plus pending never exceed the broadcasts since it subscribed. All of it counts steps of the run. |
| Pipeline.EventArrives | generator/cmd/bitmark-hp-gen/main.go:87-151 | A concrete run from boot to an event written to a client, so that what is said of every run is not empty. |
| Pipeline.CountersTrue | generator/cmd/bitmark-hp-gen/main.go:87-151 | The stamps and counters in the state are what the steps of the run say. |
| Pipeline.OffersCounted | generator/internal/sse/broker.go:37-46 | In every run each broadcast since a client subscribed has offered it the event exactly once, or still will before the broker is released. |
| Pipeline.Drains | generator/cmd/bitmark-hp-gen/main.go:134-151 | The pipeline cannot get stuck: until it has settled an internal step is possible, and every internal step leaves less work. |
| Breaker.RpcBreaker.constructor | generator/cmd/bitmark-hp-gen/main.go:181-185 | A new breaker has no failures and may call at once. |
| Breaker.RpcBreaker.Query | generator/cmd/bitmark-hp-gen/main.go:202-234 | During back-off the node is not called and the cached error is shown; a failure counts and schedules the next try; a success clears everything; an unconfigured client changes nothing. |
| Breaker.RateBound | generator/cmd/bitmark-hp-gen/main.go:189-228 | However often it is asked, n calls in a row that reach the node and fail take at least 530 + 600(n - 7) seconds for n of at least 7, from any starting state and whatever the node would have said to the asks suppressed. |
| Breaker.RateAttained | generator/cmd/bitmark-hp-gen/main.go:189-228 | A caller that asks the moment each wait ends attains the bound exactly. |
| Breaker.EveryFailureWaits | generator/cmd/bitmark-hp-gen/main.go:189-221 | Entry 0 of the delay table is never used: the first failure already waits 5 seconds. |
| Breaker.DelaysAre | generator/cmd/bitmark-hp-gen/main.go:189-221 | The failures in a row wait 5, 15, 30, 60, 120, 300 and then always 600 seconds. |
| Breaker.CachedError | generator/cmd/bitmark-hp-gen/main.go:206-233 | The text shown during back-off is that of the node's last answer, cut to 77 characters and three dots if it has more than 80; a success clears it. |
| BlockPage.MaxHeight | generator/internal/db/blockdetail.go:112-118 | The largest height in the table, or 0 for an empty one. |
| BlockPage.LoadBlock | generator/internal/db/blockdetail.go:60-207 | With commits between any two reads the page shows the block asked for, its successor exactly if it was indexed by the second read, confirmations counted at the third (at least 1, at least 2 if a next block is shown), exactly the block's transactions in order, each with its inputs, column by column: the coinbase text, or the output it spends with its value and address, and its outputs. |
| BlockPage.InListIs | generator/internal/db/blockdetail.go:152-181 | At any later time the inputs listed for a transaction are its inputs in order, with the value and address of what each spends. |
| BlockPage.OutListIs | generator/internal/db/blockdetail.go:183-207 | At any later time the outputs listed for a transaction are its outputs, in the order of their numbers. |
| BlockPage.TxListIs | generator/internal/db/blockdetail.go:120-141 | At any later time the transactions listed for a block are that block's, in block order, with their totals. |
| BlockPage.NewestFirst | generator/internal/db/blocks.go:72-81 | The newest-first list of a committed index is its blocks from the tip down to block 0. |
| BlockPage.HomePageHeights | generator/internal/db/blocks.go:58-100 | Page p shows exactly the heights counted down from n - 1 - 24(p - 1). |
| Paging.PagedBlocks | generator/internal/db/blocks.go:58-100 | The count at one read and, at the next, the rows after those of the pages before the clamped page number, as many as fit. |
| Paging.NextPageHolds | generator/cmd/bitmark-hp-gen/main.go:415-436 | When blocks are added between the count and the listing, a next link that is shown leads to the following page, and that still has something on it. |
| Paging.PagesPartition | generator/cmd/bitmark-hp-gen/main.go:415-436 | Pages 1 to totalPages put end to end are the list; a page is non-empty exactly when it is one of them; a next link is shown exactly when a later page has something, and leads to the first such page. |
| BlockPage.StaticHomePage | generator/cmd/bitmark-hp-gen/main.go:370-383 | The page on disk counts pages from the best height and always links page 2, for an empty database too: the count is right exactly when the number of blocks is not 1 modulo 24, the link leads to something exactly when there are more than 24 blocks. |
| Paging.PageWindow | generator/internal/render/multitx.go:65-84 | An unbroken run of min(15, total) pages within 1 to total, containing the current page exactly when it exists, in the middle when there is room, and otherwise starting at 1 or ending at the last page. |

## Left out

- Chain reorganisations: the indexer has no code for them, so none is modelled.
- Columns copied verbatim from the block header, transaction sizes, versions and times, algorithm decoding and weights: no behaviour depends on them here.
- `fees`, `fee` and `total_in`, which the indexer always writes as 0, and `in_best_chain`, which it always writes as true.
- CHAR(64) blank padding of txids and hashes, and the trimming that undoes it.
- The length of the pauses and the log lines inside `retryGetBlockCount`, and the classification of error texts: an error is a value, transient or not.
- `refreshAlgoStats`, the ZMQ subscriber and poll sleeps of the run loop: they do not touch the four tables or the checkpoint.
- Indexer.Ingestor.Run: takes the number of turns, and of tries of one poll, before the process is stopped as parameters, because the loops themselves never end; every finite run is covered.
- BlockPage.LoadBlock: leaves out the remaining header columns, failed or cut-short reads of the transaction, input and output lists, which the code shows as missing entries, and a backfill running at the same time, which changes addresses.
- Repair.BackfillCommutes: assumes the indexer is not running while the tool is; the two are run one after the other.
- Reward.NominalEpochReward: idealises float64, so table entries and ties are exact.
- Pipeline.NoLostWakeup: counts a generation attempt whether or not it rendered successfully, as the main loop does, and does not say when the indexer commits.
- Breaker.RpcBreaker.Query: shows a fixed text in place of the formatted remaining time.
- `Connected`, heartbeats, rate estimates and all templates, TUIs and formatting: display only.
- Aggregate statistics over wall-clock time in `generator/internal/db/stats.go`, configuration files, installers and reports.
