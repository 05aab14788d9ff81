# Typed deltas: a verified model

Typed deltas let a Hyperledger Fabric transaction carry signed ADD/SUB descriptors instead of absolute values. The
peer folds them in block order, checks a per-key invariant (NONNEG or RANGE) after every transaction, and stores the
result. Deltas are not idempotent, and several independent pieces of code read the same log: the committer, the
recovery code, the history query and an offline analyzer. This project models that code in Dafny and proves what
ties the pieces together.

`dafny verify dfyconfig.toml` checks everything.

## How the model is organised

* `Prelude`, `Int64`, `TypedDelta`, `SchemaKey`, `RwSet`: bytes, two's-complement 64-bit arithmetic with explicit
  wrap-around, the checked fold, base64url schema keys, read-write sets.
* `Validation`: what a VALID transaction means on one flat store, in unbounded integers (`Accepts`), and what it
  leaves there (`ApplyTx`); `Run` and `Verdicts` extend this to streams. Nothing in it follows the code's loops.
* `Hooks`: the commit-time code itself, with its loops, maps and early exits, over a batch of pending updates on top
  of a database. Every method is proved against `Validation` on the flat store that the two denote together.
* `Safety`, `Balances`, `Chaincode`, `MixedRuns`: theorems over whole runs.
* `History`, `Analyzer`: the two other readers of the log, and their agreement with the state.
* `Recovery`, `KvLedger`: the four stores of the ledger as a state machine of commits, crashes, restarts, crashed
  restarts, rollbacks and failed block writes; and the ledger object, proved against it.
* `Shim`, `Endorse`: the endorsement gate and descriptors.
* `CompositeKeys`, `PagedIterator`, `Handler`: the shim's key encoding, result paging and request/response protocol.
* `Witnesses`: ledgers, reached from the empty one by VALID transactions, on which the failing cases occur.

## Main results

1. Overlay refinement: validating and applying a block against pending updates over a database gives the verdicts
   and the store of committing transaction by transaction to the database, so the cutting of a stream into blocks
   does not matter (`Hooks.ValidateAndPrepareBatch`, `Hooks.CommitBlocks`).
2. Exact verdict: VALID means exactly acceptance in unbounded integers, and the separate apply pass then cannot fail
   and stores exactly the checked sums (`Hooks.ValidExactly`, `Hooks.ApplyValid`).
3. Go's random map order: the verdict is independent of it except when the transaction's deltas hit both a key whose
   stored bytes do not decode and a key that fails a check; in exactly that case two orders give different results
   (`Hooks.OrderIndependence`, `Hooks.OrderDependence`), and the case is reachable (`Witnesses.OrderCanMatter`).
4. Prefix safety over whole runs (`Safety.PrefixSafety`, `Safety.SafeOnceWritten`).
5. Exactly-once recovery over every run of commits, crashes, restarts and rollbacks; a recovered ledger equals the
   crash-free one (`Recovery.ExactlyOnce`, `Recovery.RecoveredIsCrashFree`), and the "private store is ahead" flag is
   right at every boundary except after one precisely described failure (`Recovery.AheadFlagExact`,
   `Recovery.FlagWrongExactly`).
6. History agrees with state, byte for byte (`History.HistoryAgreesWithState`), and so does the analyzer
   (`Analyzer.AnalyzerFollowsLedger`); for both the exact condition is proved over whole runs
   (`History.HistoryFollowsState`, `Analyzer.AnalyzerExactly`).
7. Conservation and reordering (`Chaincode.RequestsConserve`, `Chaincode.RequestsMoveBalances`,
   `Balances.Reordering`), although success itself depends on order (`Chaincode.OrderDecidesSuccess`).
8. No lost update when reads and deltas are mixed (`MixedRuns.NoLostUpdate`).
9. Endorsement non-interference, a two-run property (`Shim.NonInterference`); the write set of a run is exactly what its
   acknowledged calls asked for (`Shim.RecordedExactly`), and is well formed at commit and read alike by history
   (`Shim.EndorsedIsWellFormed`).
10. Composite keys: round trip, injectivity, and ranges that hold exactly the extensions of a partial key
    (`CompositeKeys.CreateRangeKeys`).
11. Response correlation, freedom from deadlock and termination of calls under every interleaving, if and only if the
    peer answers only what is outstanding (`Handler.RunsCorrelated`, `Handler.CorrelatedExactly`,
    `Handler.Progress`, `Handler.BoundedSteps`, `Handler.EveryCallReturns`).
12. The paged iterator's `HasNext` keeps its word over a whole run if and only if the pages are healthy
    (`PagedIterator.TrustExactlyHealth`), and then every item is returned once.

## Properties that do not hold as one might expect

Each comes with the exact condition under which the code does meet the property.

* The verdict can depend on map iteration order, as in result 3 above: one order aborts the block, another rejects
  only the transaction.
* If the block store fails while the ledger stays open, the private store is one block ahead and the ledger does not
  know it (`Recovery.FlagWrongExactly`): it refuses every further block until a restart
  (`Recovery.StuckUntilRestart`).
* The analyzer does not look at the delete flag. After a delete of a tracked key it agrees with the state exactly when
  the delete carries eight bytes that decode to 0, or carries no eight bytes and the balance was already 0
  (`Analyzer.DeleteAgreesExactly`).
* The analyzer adds deltas one at a time where the ledger first sums them. It skips a delta exactly when a partial sum
  from the stored value leaves int64 (`Analyzer.TxOverflowExactly`); at the largest int64 a VALID credit and debit of
  1 leave it 1 too low (`Witnesses.AnalyzerSkipsACredit`).
* Of several plain writes to one key in one transaction, history reports the first and the state keeps the last. They
  agree exactly when the two leave the same bytes (`History.StepAgrees`); an input on which they do not is in
  `History.TwoPlainWritesDiverge`.
* A page that is empty but promises more, or a failed prefetch, leaves the iterator stuck for good, and the prefetch
  loses a result that was already decoded (`PagedIterator.StuckForever`, `PagedIterator.FailedPrefetchLosesAnItem`);
  `PagedIterator.TrustExactlyHealth` is the exact condition.
* A peer that sends an answer to nothing outstanding always breaks the correlation of responses
  (`Handler.CorrelatedExactly`). A late second answer is taken by the next call of the same context for its own
  response (`Handler.LateSecondAnswer`); an early one blocks the handler's loop under its mutex for ever
  (`Handler.SecondAnswerJams`, `Handler.JammedForever`). `Handler.JamsExactly` says which steps do that.
* Two tx ids can collide, giving two transactions one context, exactly when they differ and one is a suffix of the
  other (`Handler.CollidesExactly`).

## Assumptions about code outside the model

* The batch's `Get` returns an empty value for a key deleted inside the block.
* `validateAndPrepareBatch` routes each transaction with `txTouchesTypedState`, validates it against the preceding
  updates, and applies it only if VALID; plain writes are applied before the deltas of the same transaction.
* `IsKVWriteDelete` holds of a write with the delete flag or with an empty value.
* A transaction lists each namespace once and has at most one plain write per key. This is `RwSet.Regular`; only the
  history and analyzer theorems use it, and those on history that do not mention it need only the first half.
* Parsing of JSON schema records is a partial function from bytes to schemas.
* A database commit is atomic with its savepoint. `ShouldRecover` reports the database height, and sets its flag
  exactly when that height is not the tip plus one. The private-data store accepts only the block after its last
  one. A rollback keeps at least one block.
* The history index lists, in commit order, the VALID transactions that write the key.
* The version check of read sets compares the version read with the current one; every write gives its key the
  height of its transaction.
* A peer's acknowledgement of a write does not depend on ledger contents, and proposal data are the same at every
  endorser.
* The composite-key namespace is U+0000, the delimiter U+0000 and the upper bound U+10FFFF; an empty start
  key is replaced by the byte 1; range scans include their start and exclude their end, comparing bytes.
* A send that fails has not reached the peer, and the peer's answer carries the channel and tx id of the request.

## Model

| member | source | states |
|---|---|---|
| `Int64.AddChecked` | fabric-core/typeddelta.go:96-102 | the overflow test on the wrapped sum is never wrong: a sum comes back exactly when the unbounded sum fits in int64, and is it |
| `Int64.Encode` | fabric-core/typeddelta.go:123-127 | eight bytes that decode to the same value |
| `Int64.EncodeDecode` | fabric-core/typeddelta.go:129-134 | the other direction: every 8-byte string is the encoding of what it decodes to, so the encoding is canonical |
| `Int64.EncodeIsBigEndian` | fabric-core/typeddelta.go:123-127 | the eight bytes are the two's complement of the value, most significant first |
| `Int64.MarshalInt64` | fabric-core/typeddelta.go:123-127 | the buffer filled byte by byte holds the encoding |
| `TypedDelta.SignedAmount` | fabric-core/typeddelta.go:47-59 | succeeds exactly on a known op with a non-negative argument, and gives the signed amount |
| `TypedDelta.FoldExact` | fabric-core/typeddelta.go:61-78 | the checked fold succeeds exactly when every delta is proper and every prefix sum fits, and then equals the unbounded sum |
| `TypedDelta.FoldableMeans` | fabric-core/typeddelta.go:61-78 | foldability is: all deltas proper and all prefix sums in range |
| `TypedDelta.FoldNet` | fabric-core/typeddelta.go:61-78 | the loop computes the checked fold, including which error comes first |
| `TypedDelta.FoldErrorAt` | fabric-core/typeddelta.go:61-78 | which error the fold reports: that of the first delta that is improper or takes the sum out of range |
| `TypedDelta.Apply` | fabric-core/typeddelta.go:88-94 | succeeds exactly when the fold and current-plus-net fit, and gives the unbounded result; an empty set and an overflow have their own errors |
| `SchemaKey.SchemaKeyRoundTrip` | fabric-core/typeddelta_hooks.go:22-26 | the data key can be recovered from its schema record's key, and that key is reserved |
| `SchemaKey.SchemaKeyInjective` | chaincode/typed-delta-cc.go:34-36 | two data keys never share a schema record |
| `SchemaKey.Base64RoundTrip` | fabric-core/typeddelta_hooks.go:24-26 | unpadded base64url decodes to what was encoded, for every byte string |
| `SchemaKey.Alphabet` | fabric-core/typeddelta_hooks.go:24-26 | the letters are those of base64url |
| `SchemaKey.EncodeBits` | fabric-core/typeddelta_hooks.go:24-26 | the letters carry the bits of the input in order, six each, filled up with zeros |
| `SchemaKey.StorageKeyIsPrintable` | fabric-core/typeddelta_hooks.go:22-26 | a storage key is the prefix followed by letters of the alphabet only, without padding |
| `Chaincode.RecordsAreSeparate` | chaincode/typed-delta-cc.go:90-92 | with the deployed storage keys, schema records are distinct per key and no data key the chaincode accepts is one |
| `Hooks.StateSchemaLookup` | fabric-core/typeddelta_hooks.go:66-89 | looking up through the pending updates is looking up in the store they denote |
| `Hooks.CurrentInt64` | fabric-core/typeddelta_hooks.go:213-226 | likewise for the current integer, absent and deleted keys counting as 0 |
| `Hooks.MalformedTypedWrites` | fabric-core/typeddelta_hooks.go:137-158 | true exactly when some write mixes a delta with a value or delete, or some key of a namespace has both kinds of write |
| `Validation.WellFormedMeans` | fabric-core/typeddelta_hooks.go:137-158 | the same condition position by position |
| `Hooks.TxTouchesTypedState` | fabric-core/typeddelta_hooks.go:119-135 | the first write that is a delta, is governed or fails its lookup decides the route |
| `Hooks.RouteSound` | fabric-core/typeddelta_hooks.go:119-135 | exactly the transactions without deltas and governed keys skip validation; a failed lookup can never belong to an acceptable transaction |
| `Hooks.RouteAbortsExactly` | fabric-core/typeddelta_hooks.go:119-135 | routing fails exactly when an unparsable schema record comes before any delta and any governed key |
| `Hooks.CheckPlainWrite` | fabric-core/typeddelta_hooks.go:166-189 | one plain write passes exactly when its schema, if any, has a usable invariant that holds of the written value, or of 0 for a delete |
| `Hooks.PlainTypedWritesValid` | fabric-core/typeddelta_hooks.go:160-193 | the first offending plain write decides |
| `Hooks.FoldPublicDeltas` | fabric-core/typeddelta_hooks.go:195-211 | succeeds exactly when every descriptor decodes, and groups exactly each key's deltas, in order |
| `Hooks.MatchDelta` | fabric-core/typeddelta_hooks.go:243-262 | passes exactly a descriptor that decodes and agrees with the schema on type, version and op |
| `Hooks.GatherDeltas` | fabric-core/typeddelta_hooks.go:236-267 | the first loop: first offending delta decides, otherwise the deltas are grouped per key |
| `Hooks.CheckKey` | fabric-core/typeddelta_hooks.go:270-284 | one key of the second loop |
| `Hooks.CheckFolded` | fabric-core/typeddelta_hooks.go:269-285 | the second loop in an arbitrary iteration order: the first key in that order that stops decides, and it passes exactly when every key passes |
| `Hooks.ValidateTypedDeltaTx` | fabric-core/typeddelta_hooks.go:228-295 | the verdict is the one of the flat store in some iteration order of the folded map; it is VALID exactly when the transaction is acceptable in unbounded integers, and an abort means that something did not parse or decode |
| `Hooks.ValidExactly` | fabric-core/typeddelta_hooks.go:228-295 | in every iteration order VALID holds exactly when the transaction is acceptable in unbounded integers; an abort means that something did not parse or decode |
| `Validation.KeyAcceptsExactly` | fabric-core/typeddelta_hooks.go:269-285 | the key check over the fields of the schema record: the deltas fold and the result is >= 0 under NONNEG, between lo and hi under RANGE |
| `Validation.PlainAcceptsExactly` | fabric-core/typeddelta_hooks.go:166-189 | the plain-write check over the same fields: the written integer, or 0 for a delete |
| `Validation.DeltaMatchesExactly` | fabric-core/typeddelta_hooks.go:243-262 | the descriptor check over the same fields: type, version, eight bytes, and an op that the record lists |
| `Validation.SchemaMeans` | fabric-core/typeddelta_hooks.go:66-89 | a key has the schema its record parses to, none if the record is absent or empty, an error if it does not parse |
| `Validation.TypedAcceptsExactly` | fabric-core/typeddelta_hooks.go:228-295 | a validated transaction is VALID exactly when it is well formed and every write passes these checks |
| `Validation.UnusableSchemaRejects` | fabric-core/typeddelta_hooks.go:41-53 | under an unknown invariant or an empty RANGE every write is rejected |
| `Hooks.AbortExactly` | fabric-core/typeddelta_hooks.go:228-295 | exactly when a validated transaction aborts its block: the first thing that goes wrong, in the order of the checks, does not parse or decode |
| `Hooks.AbortIsDetermined` | fabric-core/typeddelta_hooks.go:269-285 | unless the map order matters, it aborts in some order exactly when it aborts in all |
| `Hooks.OrderIndependence` | fabric-core/typeddelta_hooks.go:269-285 | unless an undecodable key and a failing key occur together, every iteration order gives the same verdict |
| `Hooks.OrderDependence` | fabric-core/typeddelta_hooks.go:269-285 | if they do, one order aborts the block and another only rejects the transaction |
| `Witnesses.OrderCanMatter` | fabric-core/typeddelta_hooks.go:269-285 | they do on a ledger reached from the empty one |
| `Hooks.TxOps.ApplyTypedDeltas` | fabric-core/typeddelta_hooks.go:297-314 | succeeds exactly when every delta key can be materialised, and upserts exactly the encoded sums, in whatever order |
| `Hooks.NextValue` | fabric-core/typeddelta_hooks.go:303-311 | the new bytes of one delta key, or an error exactly when the sums do not fit |
| `Hooks.OpsAreEffect` | fabric-core/typeddelta_hooks.go:297-314 | plain and delta upserts on top of the pending updates denote the effect of the transaction on the flat store |
| `Hooks.ApplyValid` | fabric-core/typeddelta_hooks.go:297-314 | the apply pass of an accepted transaction cannot fail and has exactly the flat effect |
| `Hooks.ValidateOne` | fabric-core/typeddelta_hooks.go:119-295 | routing and validation together accept exactly the acceptable transactions, abort only where some map order aborts, and always where every order does |
| `Hooks.ValidateAndPrepareBatch` | fabric-core/typeddelta_hooks.go:228-314 | a whole block: verdicts and resulting store are those of committing transaction by transaction; it fails if some transaction must abort, and only if some transaction may |
| `Hooks.CommitBlocks` | fabric-core/typeddelta_hooks.go:66-314 | over any sequence of blocks the result, and whether it aborts, depends only on the concatenated stream |
| `Validation.AcceptedMaterialises` | fabric-core/typeddelta_hooks.go:297-314 | whatever the check pass accepts, the apply pass can materialise |
| `Validation.RunConcat` | fabric-core/typeddelta_hooks.go:228-314 | a stream can be cut anywhere without changing the final store |
| `Validation.VerdictsConcat` | fabric-core/typeddelta_hooks.go:228-314 | nor the verdicts |
| `Validation.VerdictAt` | fabric-core/typeddelta_hooks.go:228-295 | each verdict is taken on the store its predecessors leave |
| `Safety.AcceptedWriteIsSafe` | fabric-core/typeddelta_hooks.go:160-193 | an accepted write to a governed key, delta, plain or delete, leaves its invariant true whatever was there |
| `Safety.StepSafe` | fabric-core/typeddelta_hooks.go:119-135 | one transaction, accepted, rejected or not validated at all, keeps safety and the schema |
| `Safety.PrefixSafety` | fabric-core/typeddelta_hooks.go:228-295 | a safe key stays safe after every prefix of every run that does not rewrite its schema record |
| `Safety.PrefixSafetyInFields` | fabric-core/typeddelta_hooks.go:228-295 | the same over the record: a RANGE value never leaves lo to hi, a NONNEG value is never negative |
| `Safety.SafeOnceWritten` | fabric-core/typeddelta_hooks.go:160-295 | a governed key is safe after its first VALID write and untouched before it |
| `Balances.BalanceStep` | fabric-core/typeddelta_hooks.go:297-314 | an accepted delta transaction adds to each balance exactly what it addresses to it |
| `Balances.Conservation` | fabric-core/typeddelta.go:61-94 | over any run of delta transactions the total changes by the accepted credits minus the accepted debits |
| `Balances.AcceptedRunValue` | fabric-core/typeddelta_hooks.go:297-314 | an entirely accepted run leaves the canonical encoding of start plus everything moved |
| `Balances.Reordering` | fabric-core/typeddelta_hooks.go:236-314 | two orders of the same delta transactions that are both accepted end in byte-identical stores |
| `Chaincode.EndorsedMoves` | chaincode/typed-delta-cc.go:182-225 | an endorsed Add, Sub or Transfer is delta-only and moves in all exactly its amount, or nothing for a transfer, also from a key to itself |
| `Chaincode.EndorsesExactly` | chaincode/typed-delta-cc.go:182-225 | exactly which requests endorse: non-negative amount, keys neither empty nor reserved |
| `Chaincode.EndorsedMovesTo` | chaincode/typed-delta-cc.go:182-225 | key by key: Add credits, Sub debits, Transfer debits the source and credits the destination |
| `Chaincode.RequestsMoveBalances` | chaincode/typed-delta-cc.go:182-225 | over every run of requests each balance changes by exactly what its accepted requests ask for |
| `Chaincode.RequestsConserve` | chaincode/typed-delta-cc.go:182-225 | over mixed runs of requests, VALID or not, the sum of balances changes by accepted Adds minus accepted Subs |
| `Chaincode.TransfersConserve` | chaincode/typed-delta-cc.go:203-225 | over runs of transfers the sum of balances is constant |
| `Chaincode.AddSubExactly` | chaincode/typed-delta-cc.go:182-201 | exactly when an Add or Sub is accepted, in terms of schema, current value and amount |
| `Chaincode.AddSubEffect` | chaincode/typed-delta-cc.go:182-201 | what an accepted Add or Sub leaves |
| `Chaincode.TransferExactly` | chaincode/typed-delta-cc.go:203-225 | exactly when a transfer is accepted, between two keys and from a key to itself |
| `Chaincode.TransferEffect` | chaincode/typed-delta-cc.go:203-225 | an accepted transfer leaves n less at the source, n more at the destination, and every other key as it was |
| `Chaincode.OrderDecidesSuccess` | chaincode/typed-delta-cc.go:182-201 | on an empty NONNEG account credit-then-debit is accepted and debit-then-credit is not |
| `MixedRuns.VersionDeterminesValue` | fabric-core/typeddelta_hooks.go:302-312 | equal versions at two points of a run mean equal bytes, because every write and every materialised delta changes the version |
| `MixedRuns.NoLostUpdate` | chaincode/typed-delta-cc.go:244-273 | a RevealDebit endorsed anywhere earlier is VALID only if it stores the actual current value minus n, which is not negative |
| `MixedRuns.RevealDebitExactly` | chaincode/typed-delta-cc.go:244-273 | exactly when RevealDebit endorses, and with which read and which write |
| `History.DeltaFromDescriptor` | history/query_executer.go:133-149 | history reads a descriptor as commit does, and accepts exactly the proper ones |
| `History.FoldKeyModificationFromTran` | history/query_executer.go:87-131 | one entry per transaction that writes the key: first plain write, or all deltas applied to the running value |
| `History.EntryCases` | history/query_executer.go:96-130 | entry and running value case by case: delete, canonical and other values, undecodable descriptors, deltas that do not fit |
| `History.GetHistoryForKey` | history/query_executer.go:30-69 | the entries of the fold in reverse order |
| `History.ReverseInPlace` | history/query_executer.go:65-67 | the in-place swap loop reverses |
| `History.HistoryScanner.Next` | history/query_executer.go:76-83 | hands out the entries one by one, then nothing |
| `History.StepAgrees` | history/query_executer.go:87-131 | a VALID transaction's entry is byte for byte what the state then stores exactly when the key's first and last plain writes leave the same, and then the running value keeps tracking it |
| `History.HistoryFollowsState` | history/query_executer.go:38-60 | over whole runs from any tracked value, the entries are the successive stored values if and only if that holds of every VALID transaction that writes the key |
| `History.HistoryAgreesWithState` | history/query_executer.go:30-69 | from the empty ledger, the query returns exactly the successive stored values, newest first |
| `History.TwoPlainWritesDiverge` | history/query_executer.go:96-112 | with two different non-empty plain writes to one key, history reports the first and the state keeps the second |
| `History.RegularAlways` | history/query_executer.go:96-112 | with one plain write per key the condition always holds |
| `Analyzer.AddOrKeep` | analyzer/main.go:232-238 | reports overflow exactly, and then keeps the accumulator |
| `Analyzer.SignedChange` | analyzer/main.go:244-257 | succeeds exactly on eight bytes with ADD or SUB; on a proper descriptor it is the amount that commit applies, and the negation of the least int64 wraps |
| `Analyzer.AnalyzeWrites` | analyzer/main.go:134-194 | the nested loops over one transaction's writes compute the replay |
| `Analyzer.AnyNegative` | analyzer/main.go:196-204 | the loop over touched keys finds a negative balance exactly when there is one |
| `Analyzer.AnalyzeBlocks` | analyzer/main.go:88-209 | the replay of blocks is the replay of the stream |
| `Analyzer.ReplayTxAgrees` | analyzer/main.go:134-207 | one transaction whose one-at-a-time sums stay in range and whose tracked deletes are harmless causes no overflow event, keeps all balances equal to the state, and counts a violation exactly when the state has one |
| `Analyzer.AnalyzerFollowsLedger` | analyzer/main.go:84-209 | over runs of such transactions, at every prefix: every key of the namespace without the schema prefix that passes the filter has its stored balance, no other key has one, and the violation count is the true number for these keys |
| `Analyzer.CountersExact` | analyzer/main.go:106-191 | in every run the counters are the numbers of VALID and invalid transactions and, over VALID ones, of delta writes and 8-byte plain writes to these keys |
| `Analyzer.AnalyzerExactly` | analyzer/main.go:84-209 | no overflow event and agreement after every transaction if and only if the run is of that kind |
| `Analyzer.SoundWithoutDeletes` | analyzer/main.go:84-209 | runs without tracked deletes and without overflow events are of that kind |
| `Analyzer.TxOverflowExactly` | analyzer/main.go:177-183 | a VALID transaction causes no overflow event exactly when adding its deltas one at a time to the stored values stays in int64 |
| `Analyzer.StaysMeans` | analyzer/main.go:177-183 | that is: stored value plus every partial sum is in range |
| `Analyzer.NoViolations` | analyzer/main.go:196-207 | if NONNEG schemas govern every write to tracked keys there is no violation |
| `Analyzer.DeleteAgreesExactly` | analyzer/main.go:170-192 | after any transaction that deletes a tracked key the analyzer agrees exactly when the delete carries eight bytes that decode to 0, or no eight bytes and the balance was 0 |
| `Witnesses.AnalyzerSkipsACredit` | analyzer/main.go:177-183 | a reachable ledger and a VALID transaction on which the analyzer skips a credit |
| `Recovery.ReplayIsRun` | fabric-core/kv_ledger.go:524-540 | replaying a block by its recorded verdicts, without validation, gives the committed store and no error |
| `Recovery.PlanInOrder` | fabric-core/kv_ledger.go:457-478 | recovery commits to each database exactly the blocks it lacks, in order, and brings both to the tip |
| `Recovery.PlanIsAvailable` | fabric-core/kv_ledger.go:433-452 | recovery reads only blocks after the boot snapshot and up to the tip |
| `Recovery.RefusedMeans` | fabric-core/kv_ledger.go:433-452 | it is refused exactly when a database needs a block inside the snapshot or is beyond the tip |
| `Recovery.PrefixOk` | fabric-core/kv_ledger.go:524-540 | a recovery that dies after any number of block commits leaves a valid disk |
| `Recovery.CommitOk` | fabric-core/kv_ledger.go:737-757 | a commit that dies after any store write leaves a valid disk |
| `Recovery.WriteOrder` | fabric-core/kv_ledger.go:737-757 | what a commit that dies has written: private data, then block, then state, then history |
| `Recovery.EventOk` | fabric-core/kv_ledger.go:412-831 | every event keeps the invariant |
| `Recovery.ExactlyOnce` | fabric-core/kv_ledger.go:412-540 | over all runs each database holds each block once and in order, with the store of a crash-free ledger at its height |
| `Recovery.AlwaysAPrefix` | fabric-core/kv_ledger.go:412-479 | unless a rollback keeps a database, both always hold a prefix of the block store and recovery is never refused |
| `Recovery.RecoveryReachesTip` | fabric-core/kv_ledger.go:457-478 | a completed recovery opens the ledger with both databases at the tip and the right flag |
| `Recovery.RecoveredIsCrashFree` | fabric-core/kv_ledger.go:412-540 | the recovered store is the store of a ledger that committed the same blocks without any crash |
| `Recovery.StaysBehind` | fabric-core/kv_ledger.go:446-452 | only a rollback that keeps a database can put one ahead of the block store |
| `Recovery.FlagWrongExactly` | fabric-core/kv_ledger.go:790-828 | an event makes the ahead flag wrong exactly when the block write fails right after its private-data write in an open ledger |
| `Recovery.AheadFlagExact` | fabric-core/kv_ledger.go:780-831 | otherwise, over whole runs, the flag is true exactly when the private store is ahead, and private data is written once per block and missing for none |
| `Recovery.StuckUntilRestart` | fabric-core/kv_ledger.go:811-820 | after such a failure any sequence of commits, successful or failing, leaves everything as it is until a restart, which sets the flag right |
| `KvLedger.KvLedger.IsPvtDataStoreAheadOfBlockStore` | fabric-core/kv_ledger.go:392-402 | compares the two heights |
| `KvLedger.KvLedger.RecommitLostBlocks` | fabric-core/kv_ledger.go:524-540 | the nested loop carries out its range of the plan and stays valid wherever it dies |
| `KvLedger.KvLedger.SyncStateAndHistoryDBWithBlockstore` | fabric-core/kv_ledger.go:412-479 | carries out the plan of the state machine, or refuses exactly when it does |
| `KvLedger.KvLedger.CatchUpBoth` | fabric-core/kv_ledger.go:464-478 | when both lag, the laggard is brought level first, then both to the tip |
| `KvLedger.KvLedger.Restart` | fabric-core/kv_ledger.go:194-198 | opening is the restart event, and keeps the invariant |
| `KvLedger.KvLedger.CommitToPvtAndBlockStore` | fabric-core/kv_ledger.go:780-831 | private data, block and flag after any number of store writes, and after an error of the block store |
| `KvLedger.KvLedger.Commit` | fabric-core/kv_ledger.go:659-757 | a commit is the commit event of the state machine, or its failed-block event when the block store reports an error and the ledger stays open; it writes nothing if validation fails with an error, which it does if some transaction must abort and only if some may |
| `KvLedger.ReplayBlock` | fabric-core/kv_ledger.go:532-536 | recovery's unvalidated application of a block |
| `Shim.BuildShimDelta` | shim/stub.go:217-233 | builds a descriptor exactly for a known op and a canonical non-negative amount, and it decodes to a proper delta |
| `Shim.ChaincodeStub.Query` | shim/stub.go:168-173 | every read method sets the flag, changes nothing else and hands out the state |
| `Shim.ChaincodeStub.Put` | shim/stub.go:194-208 | refuses an empty key and a key with a delta, and marks the key as plain before the peer answers |
| `Shim.ChaincodeStub.Del` | shim/stub.go:288-299 | likewise for a delete |
| `Shim.ChaincodeStub.Delta` | shim/stub.go:235-254 | refuses an empty key, any delta after a read, a key with a plain write, and a bad descriptor |
| `Shim.DeltaCallExactly` | shim/stub.go:235-254 | exactly when a PutDelta is accepted and with which error it is refused otherwise; the descriptor decodes, at commit and in history, to the op and amount of the call |
| `Shim.PlainCallExactly` | shim/stub.go:194-299 | the same for PutState and DelState |
| `Shim.ExecRecords` | shim/stub.go:194-299 | an acknowledged call records exactly the write it asks for, any other call nothing |
| `Shim.RecordedExactly` | shim/stub.go:194-299 | over every run the write set is exactly the sequence of the writes of the acknowledged calls |
| `Shim.GateRemembers` | shim/stub.go:156-299 | over every run the gate knows of a read exactly if there was one, and of a plain or delta key exactly if it was sent as such |
| `Shim.AfterReadFrozen` | shim/stub.go:239-241 | after a read no call adds a delta write |
| `Shim.RunsCoupled` | shim/stub.go:156-319 | two runs of one chaincode on two ledgers are identical until the first read, and frozen in their deltas after it |
| `Shim.NonInterference` | shim/stub.go:156-319 | for every deterministic chaincode and any two ledgers the accepted delta writes are the same |
| `Shim.RunDisciplined` | shim/stub.go:194-299 | over every run plain and delta keys stay disjoint and every delta write is proper |
| `Shim.EndorsedIsWellFormed` | shim/stub.go:194-299 | the resulting write set is never malformed at commit, and commit and history decode its descriptors alike |
| `Endorse.BuildDescriptor` | fabric-core/endorse.go:21-44 | succeeds exactly on a proper delta, and commit reads it back |
| `Endorse.DescriptorPipeline` | fabric-core/endorse.go:21-44 | the peer's builder, the shim's builder, commit and history agree on every proper delta |
| `Endorse.DescriptorInjective` | fabric-core/endorse.go:21-44 | different deltas have different descriptors |
| `Endorse.Stub.constructor` | fabric-core/endorse.go:61-73 | a fresh stub with exactly the given ops allowed |
| `Endorse.Stub.Read` | fabric-core/endorse.go:75-78 | any read sets the flag |
| `Endorse.Stub.PutState` | fabric-core/endorse.go:80-86 | refused exactly on a delta key |
| `Endorse.Stub.PutDelta` | fabric-core/endorse.go:88-105 | accepted exactly before any read, on a key without plain write, with an allowed op and a proper amount; records one write that decodes to it |
| `CompositeKeys.RunesExactly` | shim/stub.go:567-569 | the decoder accepts exactly the UTF-8 encodings of rune sequences |
| `CompositeKeys.RuneOrder` | shim/stub.go:366-375 | byte order of strings follows the order of their first runes |
| `CompositeKeys.ValidateCompositeKeyAttribute` | shim/stub.go:566-577 | accepts exactly valid UTF-8 without U+0000 and U+10FFFF |
| `CompositeKeys.AttributeExactly` | shim/stub.go:566-577 | these are exactly the encodings of runes other than these two |
| `CompositeKeys.CreateCompositeKey` | shim/stub.go:540-552 | succeeds exactly on valid parts, and joins them with NULs after the NUL namespace |
| `CompositeKeys.SplitCompositeKey` | shim/stub.go:554-564 | gives the NUL-terminated components; panics exactly when there is none |
| `CompositeKeys.CreateThenSplit` | shim/stub.go:540-564 | splitting a created key gives back object type and attributes |
| `CompositeKeys.JoinedOfSplit` | shim/stub.go:540-564 | joining what was split gives back every NUL-terminated key |
| `CompositeKeys.CreationInjective` | shim/stub.go:540-552 | different parts give different keys |
| `CompositeKeys.PartialKeyRange` | shim/stub.go:366-375 | a composite key lies in the range of a partial key if and only if it extends it |
| `CompositeKeys.CreateRangeKeys` | shim/stub.go:366-375 | the range returned holds exactly the composite keys that extend the partial key |
| `CompositeKeys.MaxRuneEscapes` | shim/stub.go:570-574 | why U+10FFFF is refused: such a key would leave the range |
| `CompositeKeys.ValidateSimpleKeys` | shim/stub.go:583-590 | accepts exactly keys that do not start with NUL |
| `CompositeKeys.RangesAreSeparate` | shim/stub.go:503-517 | a range over simple keys holds no composite key, a partial-key range no simple key |
| `PagedIterator.CommonIterator.HasNext` | shim/stub.go:690-695 | a cached result is left or more is promised |
| `PagedIterator.CommonIterator.FetchNextQueryResult` | shim/stub.go:721-729 | replaces the page, or fails and leaves it |
| `PagedIterator.CommonIterator.Next` | shim/stub.go:734-759 | one call as a function of page, position and the peer's answers |
| `PagedIterator.NextExactly` | shim/stub.go:734-759 | exactly when each error is returned, and whether the iterator moves |
| `PagedIterator.NextKeepsHealth` | shim/stub.go:734-759 | over healthy pages `HasNext` implies that `Next` returns the first remaining item and leaves the others |
| `PagedIterator.ReturnsEveryItemOnce` | shim/stub.go:689-759 | repeated `Next` returns the concatenation of all pages, and `HasNext` ends exactly then |
| `PagedIterator.TrustExactlyHealth` | shim/stub.go:689-759 | no `Next` after a true `HasNext` ever fails if and only if the pages are healthy |
| `PagedIterator.StuckForever` | shim/stub.go:756-758 | an exhausted page that promises more stays so for ever |
| `PagedIterator.FailedPrefetchLosesAnItem` | shim/stub.go:744-749 | a failed prefetch ends there, and its result is lost |
| `Handler.CollidesExactly` | shim/handler.go:85-87 | two tx ids have a common context on some two channels, without being the same transaction, if and only if they differ and one is a suffix of the other |
| `Handler.CtxInjective` | shim/handler.go:85-87 | so with tx ids of one length, contexts are equal exactly for the same channel and tx id |
| `Handler.Handler.CreateResponseChannel` | shim/handler.go:89-105 | refused exactly when the context has a channel, and then changes nothing |
| `Handler.Handler.DeleteResponseChannel` | shim/handler.go:107-114 | removes that context and no other |
| `Handler.Handler.HandleResponse` | shim/handler.go:116-131 | the channel of the message's own context, or an error exactly when there is none |
| `Handler.Handler.HandleMessage` | shim/handler.go:694-720 | state, reaction and immediate reply to the peer for every message kind: keep-alives go back, refusals are reported |
| `Handler.AcceptedStreams` | shim/handler.go:652-691 | exactly the streams that start with the handshake in order and go on with deliverable responses and new transactions are accepted |
| `Handler.ReactionsExactly` | shim/handler.go:652-720 | over every stream: transactions start exactly at TRANSACTION, initialisations exactly at INIT, responses and errors go to the channel of their context, keep-alives go back, only the handshake advances the state |
| `Handler.AcceptedReactions` | shim/handler.go:694-720 | an accepted stream has one reaction per message and no refusal, any other ends with its only refusal |
| `Handler.RendezvousRight` | shim/handler.go:129-143 | the goroutine that meets a response is the one whose request it answers |
| `Handler.StepOk` | shim/handler.go:89-145 | every step of every goroutine, of the loop and of the peer keeps the correlation invariant |
| `Handler.RunsCorrelated` | shim/handler.go:85-145 | so does every interleaving |
| `Handler.ResponseCorrelation` | shim/handler.go:223-232 | the map holds exactly the contexts in flight, no response is undeliverable, each request completes at most once and only with its own response |
| `Handler.CorrelatedExactly` | shim/handler.go:85-145 | every prefix of a run is correlated if and only if the peer answers only what is outstanding |
| `Handler.RepeatBreaks` | shim/handler.go:116-131 | one answer to nothing outstanding always breaks the correlation |
| `Handler.LateSecondAnswer` | shim/handler.go:116-145 | a run in which a late second answer becomes the result of the next call of its context |
| `Handler.RunsOrderly` | shim/handler.go:89-131 | whatever the peer sends, the map stays exact and the loop only ever blocks on the channel of its response's own context |
| `Handler.RendezvousSameContext` | shim/handler.go:116-143 | so even a repeated answer only reaches a call of its own context |
| `Handler.JamsExactly` | shim/handler.go:116-145 | exactly which steps block the loop for ever: taking up a response whose context is held by a call about to delete its channel, or a failing send under a loop blocked on that call |
| `Handler.RefusedExactly` | shim/handler.go:97-100 | a request is refused exactly when its context is in flight, and the first call keeps its channel |
| `Handler.RefusedOnlyByItsOwnTransaction` | shim/handler.go:97-100 | with tx ids of one length, only by a call of the same transaction |
| `Handler.Progress` | shim/handler.go:116-145 | while a call is in flight some step is possible, although the loop blocks under the mutex |
| `Handler.BoundedSteps` | shim/handler.go:223-232 | the calls in flight take a bounded number of steps |
| `Handler.EveryCallReturns` | shim/handler.go:223-232 | and when none is left, all have returned and the map is empty |
| `Handler.SecondAnswerJams` | shim/handler.go:116-131 | a second answer that overtakes the deletion blocks the loop under the mutex |
| `Handler.JammedForever` | shim/handler.go:116-131 | and then no call ever completes |

## Left out

- gRPC, protobuf marshalling, LevelDB and block files: the model starts from decoded transactions in commit order.
- Database read errors (as opposed to records that do not parse or decode) and the I/O errors of the history index.
- JSON syntax of schema records, and the parsing of the chaincode's string arguments.
- `requireSchemaAdmin`, `seedSchema`, `seedRangeSchema`, `putPlain` and `get` of the chaincode: certificate handling, or members that are easy given the plain-write theorems.
- `typedDeltaCapabilityEnabled`: the capability is a constant of the configuration.
- Snapshots beyond their refusal of recovery, commit notifications, statistics, commit hashes, lifecycle listeners.
- Contents, expiry, purge and reconciliation of private data: only heights and the order of writes are kept.
- The analyzer's "highthroughput" baseline, its fallback for blocks without validation flags, its counters of blocks, configuration transactions and codes, and its printing.
- The handler's `nil` map branches (the map is never set to nil), its per-message payload handling, and the loop that feeds `handleMessage`, which is not part of this model.
- `Close` of iterators, decoding of result bytes by type, and query metadata.
- `ApplyNet` on its own: it is part of `TypedDelta.Apply`.
- KvLedger.KvLedger.Commit: takes the process's death as a number of completed store writes; partial writes inside one store are excluded by the atomicity assumption.
- Handler.StepOk: sending on the stream is one atomic step; the serialising send lock is not modelled.
