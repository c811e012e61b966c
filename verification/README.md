# og-evm: a verified model

A model, in Dafny, of the algorithmic cores of og-evm, a Cosmos chain with an EVM, and proofs of what they
promise. `dafny verify dfyconfig.toml` checks the whole project.

| files | what they model |
|---|---|
| `Ordering`, `Iterator` | block building: a price heap over per-account nonce lists, merged with the Cosmos stream |
| `ResetLoop`, `BatchAdd`, `Solvency` | the transaction pool: its reset protocol, its batch insertion and its per-account validation |
| `Text`, `TypeTable`, `TypedData`, `TypeMap`, `SignDoc` | EIP-712 typed data for a sign document: flattening its messages, and a recursive compiler from JSON to a type table |
| `Varint`, `FieldStream`, `Web3Codec` | the protobuf codec of the Web3 extension option |
| `Lexicographic`, `BigEndian`, `KVIndexer`, `IndexerDrivers` | the Ethereum transaction index and the loops that fill it |
| `StateJournal`, `BalanceMirror`, `PrecompileCalls`, `PrecompileRuntime`, `PreciseBank`, `ReserveBacking`, `PrecompileSend` | precompile calls: a journalled state database whose balances follow the bank by replaying its events |
| `FeeChecker`, `DenomTrace`, `Authz` | the EIP-1559 fee of Cosmos transactions, ICS-20 denomination traces, the filter on nested authz messages |

Each component has a specification that does not mention how the code works (a scan of all account heads, a
protocol of steps, shapes of JSON values, a grammar of wire data, a bank and its mirror, free reduction of
walks, paths into a message tree). Functions give the meaning of the code, methods and classes its loops and
its state, and lemmas connect the two for every input, every run or every reachable state.

## Assumptions

- Channels are step labels and locks are atomic steps. A schedule fixes one interleaving, and claims are about
  every schedule.
- The base fee is fixed during one iteration of the mempool, and Cosmos transactions name a positive amount of
  gas.
- `container/heap`'s `Fix` at the root only sifts down: sifting up from the root does nothing.
- Subpools return one error per transaction. Validation callbacks report the pool as it is.
- JSON keys are made of letters, digits and underscores, so that a lookup by key is not read as a path
  expression. Title casing is that of ASCII. Setting a new key of a JSON object appends it, and deleting a key
  removes its first occurrence.
- The index lives in a sorted map with atomic batches. Heights are positive and fit into
  int64, indexes fit into int32.
- A message buffer is shorter than 2^63 bytes.
- An account without an entry in the transaction's context holds no coins. No balance reaches 2^256. The
  events of a native action mirror its bank steps, as `PreciseBank` shows for a send. A send in which the bank
  panics fails. The EVM reverts to its snapshot when a precompile fails.
- The base fee is not negative and the priority reduction is positive.
- Channel ends come in pairs. An identifier names at most one end of a chain.

## Where code and documentation differ

The model follows the code.

- `mempool/iterator.go:209-216`: when an EVM transaction does not convert, `Tx` shows the Cosmos head while
  `Next` still drops the EVM transaction, so the Cosmos transaction appears twice.
- `mempool/txpool/txpool.go:253`: a waiting Sync request is overwritten by the next one and never answered.
- `server/indexer_service.go:92-95` describes a retry after a failed fetch. The flag is never cleared, so the
  service stops indexing for good.
- `server/indexer_service.go:118-121`: the service steps past a block that it failed to index, which leaves a
  gap.
- `server/indexer_cmd.go:24`: on an empty index, indexing backward is said to start from the latest block. It
  starts one below.
- `indexer/kv_indexer.go:216-226`: a transaction hash that occurs in two blocks keeps only the record written
  last.
- `ante/evm/fee_checker.go:27` gives the priority as the effective gas price over the reduction. The code
  subtracts the base fee first.
- `ante/evm/fee_checker.go:154-172`: a fee of priority zero is forgotten when another fee follows, so the priority
  need not be the smallest one.
- `ethereum/eip712/domain.go:13`: a chain id of 64 bits becomes negative in the typed data's domain.
- `x/precisebank/keeper/send.go:241-243` says that the reserve always has the coin of a carry. It has while it
  backs all fractions, which lasts until sends of the reserve account itself have paid out more than its remainder.
- `ante/cosmos/authz.go:42-43` bounds the nesting of messages. The code also counts the MsgExecs that stand
  side by side.

## Model

| member | source | states |
|---|---|---|
| Ordering.PayableIsLongestPrefix | mempool/miner/ordering.go:40-56 | an account's share of a block is the longest prefix of its nonce list whose every fee cap covers the base fee |
| Ordering.QueuesArePayablePrefixes | mempool/miner/ordering.go:108-118 | what is queued for an account, in the transactions' own fields: the prefix of its list up to the first fee cap below the base fee |
| Ordering.NewTxWithMinerFee | mempool/miner/ordering.go:40-56 | wrapping succeeds exactly when the fee cap covers the base fee; the fee is then the smaller of the tip cap and the fee cap minus the base fee |
| Ordering.RootIsBest | mempool/miner/ordering.go:62-72 | in a heap no entry pays more than the root, or the same and earlier |
| Ordering.SinkRestoresHeap | mempool/miner/ordering.go:139-149 | sinking one misplaced entry restores the heap order from that level up |
| Ordering.SinkPermutes | mempool/miner/ordering.go:139-149 | sinking loses and duplicates no entry |
| Ordering.Down | mempool/miner/ordering.go:139-149 | the in-place sift loop of `container/heap` computes the sink of the prefix it works on |
| Ordering.Init | mempool/miner/ordering.go:119-119 | heap construction leaves a heap over a permutation of the entries |
| Ordering.WithoutRootFacts | mempool/miner/ordering.go:154-156 | removing the root leaves a heap of exactly the other entries |
| Ordering.PopRoot | mempool/miner/ordering.go:154-156 | the in-place swap and sift of `container/heap` compute the removal of the root |
| Ordering.RemoveRoot | mempool/miner/ordering.go:154-156 | removing the root of a heap that holds the queues leaves a heap that holds them without the root's account |
| Ordering.ReplacedRootFacts | mempool/miner/ordering.go:139-149 | replacing the root leaves a heap of the other entries and the new one |
| Ordering.FixRoot | mempool/miner/ordering.go:139-149 | a new front for the root's account, fixed in place, leaves a heap that holds the queues without the transaction it replaced |
| Ordering.CollectHeads | mempool/miner/ordering.go:108-118 | the constructor's loop keeps one front per account whose first transaction is payable, and together with the leftover lists these fronts hold exactly the payable queues |
| Ordering.FrontIsBest | mempool/miner/ordering.go:131-136 | the heap's root is the head that a scan of all accounts would choose |
| Ordering.TransactionsByPriceAndNonce.constructor | mempool/miner/ordering.go:102-128 | the new set holds, per account, the payable prefix of its list |
| Ordering.TransactionsByPriceAndNonce.Peek | mempool/miner/ordering.go:131-136 | peeks at a head that no other account's head beats by tip, then by time, the tip read off the transactions' own fee fields; none exactly when every queue is empty |
| Ordering.TransactionsByPriceAndNonce.Shift | mempool/miner/ordering.go:139-149 | removes exactly the first transaction of the root's account, keeping the heap |
| Ordering.TransactionsByPriceAndNonce.Pop | mempool/miner/ordering.go:154-156 | removes the root's whole account, keeping the heap |
| Ordering.RunConservesQueues | mempool/miner/ordering.go:131-149 | over any run of peek and shift, what was emitted for an account followed by what is left is its queue |
| Ordering.CompleteRunEmitsEachQueueOnce | mempool/miner/ordering.go:131-149 | a run to the end emits every account's payable prefix once and in nonce order |
| Ordering.RunLength | mempool/miner/ordering.go:131-149 | emitted plus remaining transactions stay constant, so the run ends |
| Ordering.TransactionsByPriceAndNonce.Drain | mempool/miner/ordering.go:131-149 | the whole loop over the heap is a run of the scan specification: each step emits a best head, each queue comes out complete and in order |
| MempoolIterator.NewEVMMempoolIterator | mempool/iterator.go:48-70 | there is an iterator exactly when one of the streams holds a transaction, and it stands at the start of both |
| MempoolIterator.EVMMempoolIterator.GetNextEVMTx | mempool/iterator.go:167-172 | the EVM candidate is the heap's root, none exactly when the EVM side is empty |
| MempoolIterator.EVMMempoolIterator.GetNextCosmosTx | mempool/iterator.go:175-192 | the Cosmos candidate is the head of the Cosmos stream with the tip that `CosmosTipIs` and `NoBondFeeNoTip` determine |
| MempoolIterator.EVMMempoolIterator.ExtractCosmosEffectiveTip | mempool/iterator.go:251-292 | the loop over the fee coins computes the tip that `CosmosTipIs` and `NoBondFeeNoTip` determine |
| MempoolIterator.CosmosTipIs | mempool/iterator.go:251-292 | whatever the loop does, the tip is the price per unit of gas, rounded down, that the last coin in the bond denomination pays, less the base fee and never below zero; a price beyond 256 bits counts as no tip |
| MempoolIterator.NoBondFeeNoTip | mempool/iterator.go:251-258 | a transaction that is no fee transaction, or pays no coin in the bond denomination, has tip zero |
| MempoolIterator.EVMMempoolIterator.CurrentIsTurn | mempool/iterator.go:135-164 | the chosen side is a legal turn: the Cosmos side goes before an available EVM transaction only with a strictly higher tip |
| MempoolIterator.EVMMempoolIterator.ShouldUseEVM | mempool/iterator.go:135-164 | decides for the side whose turn it is |
| MempoolIterator.EVMMempoolIterator.Tx | mempool/iterator.go:103-120 | shows the turn's transaction, or the Cosmos head when an EVM transaction does not convert |
| MempoolIterator.EVMMempoolIterator.AdvanceCurrentIterator | mempool/iterator.go:225-247 | advances exactly the side whose turn it is |
| MempoolIterator.EVMMempoolIterator.HasMoreTransactions | mempool/iterator.go:327-331 | true exactly while one side is not empty |
| MempoolIterator.EVMMempoolIterator.Next | mempool/iterator.go:75-98 | advances the side that `Tx` chose and reports whether anything is left |
| MempoolIterator.EVMMempoolIterator.TakeOne | mempool/iterator.go:75-120 | one look and one step agree on the side they are about |
| MempoolIterator.EVMMempoolIterator.Drain | mempool/iterator.go:75-120 | the whole iteration ends and is a merge of the two streams down to nothing |
| MempoolIterator.MergeRunsTheHeap | mempool/iterator.go:225-247 | the EVM turns of any merge are a run of the price heap alone |
| MempoolIterator.MergeKeepsCosmosOrder | mempool/iterator.go:225-247 | the Cosmos turns followed by what is left are the Cosmos stream |
| MempoolIterator.EvmPartOfMerge | mempool/iterator.go:196-222 | the EVM part of the output is the heap's run without the transactions that do not convert |
| MempoolIterator.CosmosPartOfMerge | mempool/iterator.go:196-222 | without conversion failures the Cosmos part is the Cosmos turns and nothing is blank |
| MempoolIterator.OutputIsInterleavingIffAllConvert | mempool/iterator.go:196-222 | a complete iteration shows every EVM and every Cosmos transaction exactly once, in its own order, if and only if every queued EVM transaction converts |
| MempoolIterator.CosmosPartInGeneral | mempool/iterator.go:196-222 | in every complete iteration each Cosmos transaction appears once, and once more for every conversion that failed while it stood in front; failures behind the last one show nothing |
| MempoolIterator.ConversionFailureShowsCosmosTwice | mempool/iterator.go:209-216 | the smallest failing case: one unconvertible EVM transaction makes a Cosmos transaction appear twice |
| ResetLoop.TryStart | mempool/txpool/txpool.go:181-222 | the top of the loop: a reset starts exactly when the head moved or one is forced, and none is running |
| ResetLoop.Await | mempool/txpool/txpool.go:199-223 | while the loop waits the goroutines work, and it goes on with the first message that is ready |
| ResetLoop.Select | mempool/txpool/txpool.go:223-254 | each case of the select statement: a head is taken over, a completed reset sets the old head and answers, a request is recorded, quitting ends the loop |
| ResetLoop.Loop | mempool/txpool/txpool.go:149-258 | the loop under any schedule computes the run of the protocol's steps, whose received heads and requests `RunHoldsWhatItReceived` reads off the schedule |
| ResetLoop.StepKeepsInv | mempool/txpool/txpool.go:181-257 | every step keeps the invariant of the protocol |
| ResetLoop.RunHoldsWhatItReceived | mempool/txpool/txpool.go:223-254 | over every interleaving the loop holds the last head that arrived before the pool quit, has recorded exactly the requests that did, and is closed exactly when told to quit |
| ResetLoop.LastHeadIs | mempool/txpool/txpool.go:224-227 | the head in force is that of the latest arrival not preceded by a quit |
| ResetLoop.RunHoldsLastAvailableState | mempool/txpool/txpool.go:181-197 | over every interleaving the pool's state is that of the newest reset whose head state was available, or the first head's |
| ResetLoop.EveryRunIsSafe | mempool/txpool/txpool.go:149-258 | over every interleaving: at most one reset in flight, each reset's old head is the previous one's new head, a nil answer follows a complete reset that started after the request, and an open loop with no reset running stands at the last head of the schedule and owes no forced reset |
| ResetLoop.EachRequestHasOneFate | mempool/txpool/txpool.go:173-258 | every received Sync request is answered, refused at shutdown, overwritten by a later one, or waiting, and only one of these |
| ResetLoop.OverwrittenExactlyWhen | mempool/txpool/txpool.go:245-253 | over every interleaving a Sync request is overwritten if and only if another arrives while it waits and the loop is open |
| ResetLoop.AnsweredExactlyWhen | mempool/txpool/txpool.go:229-240 | it is answered if and only if a completion arrives while it waits and no forced reset is owed |
| ResetLoop.RefusedExactlyWhen | mempool/txpool/txpool.go:173-179 | it is refused if and only if the pool quits while it waits |
| ResetLoop.FatesAreFinal | mempool/txpool/txpool.go:173-258 | a request that was overwritten, refused or answered stays so in every later state and meets no other fate; an overwritten one is never answered |
| ResetLoop.SecondRequestOverwritesFirst | mempool/txpool/txpool.go:253-253 | two requests in a row: the first is overwritten |
| ResetLoop.TwoCompletionsAnswer | mempool/txpool/txpool.go:181-255 | in every schedule without further requests, heads arriving freely, two completed resets answer the waiting request |
| ResetLoop.FinishEndsTheReset | mempool/txpool/txpool.go:199-240 | a running reset that finishes hands the loop back in the state its completion prescribes |
| ResetLoop.QuietLoopSettlesInTwoResets | mempool/txpool/txpool.go:181-258 | with no further events two resets bring the loop to rest at the head it holds with no one waiting |
| ResetLoop.RunSettlesAtLastHead | mempool/txpool/txpool.go:181-258 | every run without a quit, left alone for two resets, comes to rest at the last head of the schedule with no one waiting |
| ResetLoop.ClosedStays | mempool/txpool/txpool.go:181-258 | after quitting nothing changes any more |
| BatchAdd.FindPool | mempool/txpool/txpool.go:345-354 | finds the subpool whose filter accepts the transaction while no earlier one does; -1 exactly when none accepts |
| BatchAdd.FirstPoolIs | mempool/txpool/txpool.go:345-354 | the chosen subpool is the one whose filter accepts while no earlier one does, and -1 if and only if none accepts |
| BatchAdd.PositionsAre | mempool/txpool/txpool.go:345-354 | the positions of a subpool in the batch are, in increasing order, those of the transactions that it takes |
| BatchAdd.ShareIsAtPositions | mempool/txpool/txpool.go:345-354 | a subpool's share is the batch at its positions |
| BatchAdd.SplitBatch | mempool/txpool/txpool.go:340-355 | every subpool gets exactly its transactions in batch order, as `ShareIsAtPositions` says, and the splits name the subpools |
| BatchAdd.Assign | mempool/txpool/txpool.go:345-354 | a transaction joins the end of its subpool's share and no other |
| BatchAdd.AddShares | mempool/txpool/txpool.go:358-361 | each subpool's errors are those for its own share |
| BatchAdd.JoinErrors | mempool/txpool/txpool.go:362-373 | handing out the next error of each transaction's subpool gives every transaction its own error |
| BatchAdd.JoinOne | mempool/txpool/txpool.go:362-372 | one transaction takes the next error of its subpool and leaves the others their own |
| BatchAdd.ShareIsLongerAfter | mempool/txpool/txpool.go:363-372 | a transaction's place in its subpool's share is the number of earlier ones that went there |
| BatchAdd.Add | mempool/txpool/txpool.go:333-374 | the i-th error is the one its own subpool returned for the i-th transaction, or unsupported when no subpool takes it, as `ErrorForIs` spells out |
| BatchAdd.ErrorForIs | mempool/txpool/txpool.go:340-373 | the error of a transaction without reference to how the batch is split: unsupported when no filter accepts it, otherwise what the first accepting subpool returns at its place among the transactions that subpool takes |
| BatchAdd.BatchEqualsOneByOne | mempool/txpool/txpool.go:333-374 | for subpools that process their share in order, the batch leaves the same states and errors as adding the transactions one at a time |
| Solvency.CostOfUpdate | mempool/txpool/validation.go:244-255 | replacing a pooled transaction changes the total cost by the difference of the two costs |
| Solvency.GapDecidesNoGaps | mempool/txpool/validation.go:229-233 | admitting a nonce leaves no gap exactly when it is not beyond the first gap |
| Solvency.AcceptsExactlyWhatStaysSound | mempool/txpool/validation.go:216-266 | with faithful callbacks a transaction is accepted if and only if the account stays solvent, above its state nonce, gapless and within its slots after admitting it |
| Solvency.ErrorTellsWhatBreaks | mempool/txpool/validation.go:216-266 | each error is returned exactly when admission would break that condition and no earlier one: stale nonce, gap, total cost above the balance, too many slots |
| Solvency.RunsStaySound | mempool/txpool/validation.go:216-266 | after any run of inserts and replacements every account is sound |
| TypeTable.SortedKeysAreTheKeys | ethereum/eip712/types.go:224-244 | the sorted keys are the object's keys, each once, in descending order |
| Text.ItoaIsNumeral | ethereum/eip712/types.go:312-314 | the index is written as the decimal numeral of its value, without leading zeros |
| Text.ItoaIsInjective | ethereum/eip712/message.go:139-141 | different numbers are written differently |
| Text.SplitAtSeparator | ethereum/eip712/types.go:122-123 | text around a separator splits into the parts before it followed by the parts behind it |
| Text.TitleChangesFirstLetter | ethereum/eip712/types.go:351-351 | title casing puts the first letter in upper case and changes nothing else |
| TypeTable.RepresentableIff | ethereum/eip712/types.go:160-217 | a field is representable if and only if it holds a boolean, a number, a string, an object, an empty array or an array whose first element is neither null nor an array |
| TypeTable.CamelPair | ethereum/eip712/types.go:334-352 | foo_bar becomes FooBar |
| TypeTable.SubFieldName | ethereum/eip712/types.go:267-269 | the name of a nested type is that of the enclosing path followed by the field's own name |
| TypeTable.PathName | ethereum/eip712/types.go:334-356 | the documented naming: _.foo_bar.baz becomes Type followed by the two names in camel case |
| TypeTable.SanitizedPath | ethereum/eip712/types.go:338-356 | a sanitized path is alphanumeric and starts with Type |
| TypeTable.SanitizeIsStable | ethereum/eip712/types.go:338-356 | a numbered sanitized name is unchanged by being sanitized again |
| TypeTable.AddTypes | ethereum/eip712/types.go:278-308 | inserting a definition changes no existing entry |
| TypeTable.AddFromExtends | ethereum/eip712/types.go:278-308 | a successful insertion adds at most the returned name, which then holds the types; a failed one changes nothing |
| TypeTable.AddFromTakesFirst | ethereum/eip712/types.go:278-308 | the insertion takes the first index, counted from zero, whose name is free or already holds these types |
| TypeTable.AddFromAgain | ethereum/eip712/types.go:278-308 | inserting the same types again finds the same name and changes nothing, in any later table |
| TypeTable.AddFromFails | ethereum/eip712/types.go:278-308 | the search gives up exactly when all 1000 numbered names are taken by other types |
| TypeTable.Compile | ethereum/eip712/types.go:143-220 | compiling a message only extends the table |
| TypeTable.CompileFields | ethereum/eip712/types.go:159-217 | compiling the fields only extends the table |
| TypeTable.CompileField | ethereum/eip712/types.go:159-217 | compiling one field only extends the table |
| TypeTable.CompileAgain | ethereum/eip712/types.go:143-220 | compiling a message again returns the same key and leaves the table unchanged, in any table that kept the numbered entries |
| TypeTable.CompiledName | ethereum/eip712/types.go:143-254 | a message's type is its root type, and a nested object's type its sanitized path, followed by a decimal index below 1000 |
| TypeTable.NestedName | ethereum/eip712/types.go:192-212 | a field with an object, or with an array that starts with one, is listed under the path's name, its own name and an index, as a collection exactly for an array |
| TypeTable.DescribesIsStable | ethereum/eip712/types.go:143-220 | what a reference means does not change as the table grows |
| TypeTable.InsertionIsSound | ethereum/eip712/types.go:219-219 | the inserted definition lists the object's representable fields with matching types |
| TypeTable.CompileFieldIsSound | ethereum/eip712/types.go:160-217 | a field is listed exactly when it is representable, and its type describes its shape |
| TypeTable.CompileFieldsIsSound | ethereum/eip712/types.go:159-217 | the list of fields matches the representable fields of the object, in order |
| TypeTable.CompileIsSound | ethereum/eip712/types.go:143-220 | the returned key describes the object's shape in the final table, and a closed table stays closed, although the table grows and keys are sanitized again on the way |
| TypedData.ConformsIffFits | ethereum/eip712/types.go:143-220 | a value is of a described type in the table exactly when it has the shape, which does not mention the table |
| TypedData.FitsOwnShape | ethereum/eip712/types.go:165-187 | a value has the shape computed from its first array elements exactly when its arrays are homogeneous |
| TypedData.MessageConformsIffHomogeneous | ethereum/eip712/types.go:165-187 | a compiled message is a value of its type if and only if its arrays are homogeneous |
| TypedData.MixedArrayDoesNotConform | ethereum/eip712/types.go:165-187 | an array of a string and a number is typed as strings and does not conform |
| TypedData.RootTypeAfterSlash | ethereum/eip712/types.go:115-128 | a message type s/t with no slash in t has the root type Type followed by t |
| TypedData.RootTypeWithoutSlash | ethereum/eip712/types.go:115-128 | a message type without a slash is kept whole behind Type; an empty one is refused |
| TypedData.AddMsgAgain | ethereum/eip712/types.go:91-137 | adding a message again gives it the same type and changes only Tx |
| TypedData.AddMsgIsSound | ethereum/eip712/types.go:91-137 | adding a message keeps everything already built and adds its field to Tx |
| TypedData.SchemaIsSound | ethereum/eip712/types.go:35-87 | the schema of any payload is closed, keeps the fixed types and the fields of Tx, and lists every message in order, named after its root type with an index, under a type of exactly its shape; each message conforms exactly when its arrays are homogeneous |
| TypeMap.TypesAreEqual | ethereum/eip712/types.go:320-332 | the loop decides equality of the two lists |
| TypeMap.SanitizeTypedef | ethereum/eip712/types.go:338-356 | the nested loops over parts and subparts compute the sanitized name |
| TypeMap.TypeMap.constructor | ethereum/eip712/types.go:36-75 | the table starts with the four fixed types |
| TypeMap.TypeMap.AddTypesToRoot | ethereum/eip712/types.go:278-308 | the in-place search and insertion is the insertion function |
| TypeMap.TypeMap.RecursivelyAddTypesToRoot | ethereum/eip712/types.go:143-220 | the in-place recursion over the sorted fields is the compiler |
| TypeMap.TypeMap.FieldType | ethereum/eip712/types.go:160-217 | one round of the loop over the fields |
| TypeMap.TypeMap.AddMsgTypesToRoot | ethereum/eip712/types.go:91-137 | adds one message and its field in Tx; `RootTypeAfterSlash` and `CompiledName` say under which name |
| TypeMap.CreateEIP712Types | ethereum/eip712/types.go:35-87 | the loop over the messages builds the schema of `SchemaIsSound`, or stops at the first error |
| SignDoc.Flatten | ethereum/eip712/message.go:70-152 | the list of messages becomes one field per message behind the other fields; fails exactly without a list, at the first message that is not an object and at the first key that is taken, with the error of that message |
| SignDoc.FlattenedLookup | ethereum/eip712/message.go:70-152 | flattening loses nothing: message i is found under msg followed by i, and every other key holds what it held |
| SignDoc.ListIsGone | ethereum/eip712/message.go:145-152 | the list itself is gone |
| SignDoc.PayloadConforms | ethereum/eip712/types.go:35-87 | a payload is a value of Tx if and only if its header fields and coins are well formed, its messages are homogeneous and it has no other representable field |
| SignDoc.SignDocConforms | ethereum/eip712/eip712.go:9-34 | for every sign document: the flattened message is a value of the primary type under the generated schema if and only if the document's header is well formed, the arrays in its messages are homogeneous and it has no field besides header and messages |
| SignDoc.DomainConformsIff | ethereum/eip712/domain.go:9-19 | the domain holds the chain id, and is a value of its type, if and only if the chain id fits into 63 bits |
| SignDoc.WrapTxToTypedData | ethereum/eip712/eip712.go:9-34 | a request is made exactly when flattening and the schema succeed; it holds the flattened message, its schema, the primary type Tx and the domain |
| Varint.SovIsEncodedLength | ethereum/eip712/web3.pb.go:176-178 | the size formula from the bit length is the number of bytes that the encoder writes |
| Varint.VarintRoundTrip | ethereum/eip712/web3.pb.go:145-155 | decoding an encoded uint64 gives it back, whatever follows |
| Varint.EncodeVarintInto | ethereum/eip712/web3.pb.go:145-155 | writes exactly the encoding, ending at the offset, and nothing else in the buffer |
| Varint.ReadVarint | ethereum/eip712/web3.pb.go:188-201 | the decoding loop reads the varint at its index, with the overflow and end-of-input errors and the bits accumulated before them |
| Varint.OrIsSum | ethereum/eip712/web3.pb.go:197-197 | or-ing in bits above all bits of a number is adding them |
| Varint.AccumulateIsSum | ethereum/eip712/web3.pb.go:197-197 | the or with a shift that drops what leaves 64 bits is a sum modulo 2^64, because the bits read so far lie below the shift |
| Varint.GroupsBelowShift | ethereum/eip712/web3.pb.go:188-201 | in the decoding loop the value read so far lies below the next shift |
| Varint.PassVarint | ethereum/eip712/web3.pb.go:340-351 | the loop that only passes over a varint ends where decoding it would |
| Varint.ParseVarintLocal | ethereum/eip712/web3.pb.go:188-201 | what follows a varint does not change how it is read |
| Web3Codec.SizeIsEncodedLength | ethereum/eip712/web3.pb.go:156-174 | Size is the length of the encoding |
| Web3Codec.NegativeIsSign | ethereum/eip712/web3.pb.go:252-258 | a 64-bit sum is taken for negative exactly when its two's complement value is |
| Web3Codec.Int32IsSigned | ethereum/eip712/web3.pb.go:202-203 | a field number is the 32-bit two's complement value of the tag without its wire type |
| Web3Codec.PutBytesField | ethereum/eip712/web3.pb.go:123-136 | a length-delimited field is written backwards in front of what is already there |
| Web3Codec.MarshalToSizedBuffer | ethereum/eip712/web3.pb.go:118-143 | fills exactly Size bytes at the end of the buffer with the encoding |
| Web3Codec.Marshal | ethereum/eip712/web3.pb.go:103-112 | returns exactly the encoding |
| Web3Codec.DecodeConcat | ethereum/eip712/web3.pb.go:182-316 | decoding a concatenation is decoding its parts in turn, later fields merged into earlier ones |
| Web3Codec.RoundTrip | ethereum/eip712/web3.pb.go:103-316 | unmarshalling a marshalled message gives the message back |
| Web3Codec.SkipPrinted | ethereum/eip712/web3.pb.go:317-394 | skipping passes over exactly one well-formed field, groups of any depth included |
| Web3Codec.UnknownFieldDecodesToNothing | ethereum/eip712/web3.pb.go:296-309 | a well-formed field with an unknown number leaves the message as it is |
| Web3Codec.UnknownFieldIsIgnored | ethereum/eip712/web3.pb.go:296-309 | an unknown field before, between or behind the known ones changes neither success nor the message |
| Web3Codec.SkipValueAt | ethereum/eip712/web3.pb.go:337-388 | each wire type is passed over by the rule of the source, with its wraparound and length errors |
| Web3Codec.SkipRecordAt | ethereum/eip712/web3.pb.go:321-391 | one record of the skip loop, on every byte string |
| Web3Codec.SkipRound | ethereum/eip712/web3.pb.go:321-391 | one round of the skip loop ends the skip or moves on with the groups that are open |
| Web3Codec.SkipWeb3 | ethereum/eip712/web3.pb.go:317-394 | total on every byte string: no index out of range, progress in every round |
| Web3Codec.ReadBytes | ethereum/eip712/web3.pb.go:234-261 | a length-delimited value with its negative-length and end-of-input checks |
| Web3Codec.PassUnknownAt | ethereum/eip712/web3.pb.go:296-308 | a field with an unknown number is passed over, with the source's checks on its length |
| Web3Codec.ParseField | ethereum/eip712/web3.pb.go:185-310 | every field read takes at least one byte and stays inside the input |
| Web3Codec.ExtensionOptionsWeb3Tx.UnmarshalField | ethereum/eip712/web3.pb.go:185-310 | one round of the outer loop updates the message as the parsing function says, and on an error leaves it unchanged but for the bits of a chain id that broke off |
| Web3Codec.ExtensionOptionsWeb3Tx.UnmarshalBody | ethereum/eip712/web3.pb.go:202-309 | what follows a tag is read by its field number and wire type, with the errors in the source's order and the message they leave |
| Web3Codec.ExtensionOptionsWeb3Tx.UnmarshalKnown | ethereum/eip712/web3.pb.go:210-295 | the three known fields with their wire-type checks, and the message that each error leaves |
| Web3Codec.ExtensionOptionsWeb3Tx.Unmarshal | ethereum/eip712/web3.pb.go:182-316 | total on every byte string; success means that exactly the whole input was consumed and gives the decoded message; the message left by an error is determined too |
| Web3Codec.LeftAfterError | ethereum/eip712/web3.pb.go:182-316 | after an error the message is what the input before the failing field decodes to, except that a chain id whose varint broke off holds the bits read so far |
| Web3Codec.LeftAfterSuccess | ethereum/eip712/web3.pb.go:182-316 | after a success the message left is the decoded one |
| Web3Codec.FieldsAreTight | ethereum/eip712/web3.pb.go:185-310 | a field is read from its own bytes alone: cutting off what follows changes nothing |
| BigEndian.DecodeEncode | indexer/kv_indexer.go:227-233 | a big-endian number decodes to itself |
| BigEndian.EncodeKeepsOrder | indexer/kv_indexer.go:170-174 | fixed-width big-endian encodings sort like the numbers |
| KVIndexer.EntriesAreNumbered | indexer/kv_indexer.go:58-119 | the i-th entry of a block carries the block's height and the index i |
| KVIndexer.BlockRecords | indexer/kv_indexer.go:60-118 | every entry of a block is the record of one message of an indexable transaction, in the order of transactions and messages: its transaction, its index, its hash, and the gas and failure that its events report or, when the code is not ok, its gas limit and a failure |
| KVIndexer.BlockGasAddsUp | indexer/kv_indexer.go:82-112 | the cumulative gas of a record is the gas of its transaction's entries up to its message, in 64 bits |
| KVIndexer.RecordedExactlyWhen | indexer/kv_indexer.go:60-118 | a message has an entry if and only if its transaction succeeded or failed as expected, decodes, is an eth transaction and its events parse, and the events mention the message or the code is not ok |
| KVIndexer.KeyLayout | indexer/kv_indexer.go:165-174 | a hash key is the byte 1 and the hash; an index key is the byte 2 with height and index in eight big-endian bytes each |
| KVIndexer.IndexKeysSortByHeight | indexer/kv_indexer.go:170-174 | index keys sort by height, then by index |
| KVIndexer.IndexKeysAreDistinct | indexer/kv_indexer.go:170-174 | distinct positions have distinct keys, negative numbers included |
| KVIndexer.BlockNumberOfKey | indexer/kv_indexer.go:227-233 | the height is read back from every index key |
| KVIndexer.BatchIndexKeys | indexer/kv_indexer.go:216-226 | a block's batch holds an index key exactly for each of its entries, pointing at that entry's hash |
| KVIndexer.BatchHashKeys | indexer/kv_indexer.go:216-226 | a block's batch holds under a hash the last of its entries with that hash |
| KVIndexer.IndexKeysAfter | indexer/kv_indexer.go:52-124 | after any run the index keys are exactly the positions of the indexed blocks |
| KVIndexer.HashKeysAfter | indexer/kv_indexer.go:52-124 | after any run a hash holds what was last written for it |
| KVIndexer.NoOtherKeys | indexer/kv_indexer.go:52-124 | the store holds nothing besides index keys and hash keys |
| KVIndexer.LookupByPosition | indexer/kv_indexer.go:153-162 | lookup by height and index succeeds exactly for the entries of indexed blocks and shows what their hash was last written with |
| KVIndexer.WrittenIsNotBlank | indexer/kv_indexer.go:142-144 | no stored record marshals to nothing, which a lookup would take for a missing one |
| KVIndexer.LookupIsOwn | indexer/kv_indexer.go:137-162 | with distinct hashes both lookups show the message's own record, with that height and index |
| KVIndexer.MessageIsFound | indexer/kv_indexer.go:52-162 | with distinct hashes every message that is to be recorded is found by its hash in any store that has its block, with its place, gas, failure and cumulative gas |
| KVIndexer.LookupIsOwnIffKeepsItsHash | indexer/kv_indexer.go:137-162 | in general a lookup shows its own record if and only if, after some indexing of its block, no message with the same hash stands later in the block or in a block indexed later |
| KVIndexer.SharedHashIsTakenOver | indexer/kv_indexer.go:216-226 | for every hash, when two blocks share it the first one's position shows the second one's record |
| KVIndexer.StoreDependsOnHeightsOnly | indexer/kv_indexer.go:52-124 | the store depends only on which heights were indexed, not on order or repetition |
| KVIndexer.ReindexingChangesNothing | indexer/kv_indexer.go:52-124 | indexing a block again changes nothing |
| KVIndexer.FirstOfIterator | indexer/kv_indexer.go:177-200 | an iterator over the index range stands on its least, or greatest, key |
| KVIndexer.EndOfIndex | indexer/kv_indexer.go:177-200 | the greatest and the least index key belong to the last and the first indexed block with eth transactions |
| KVIndexer.LoadEndBlock | indexer/kv_indexer.go:177-200 | LoadLastBlock and LoadFirstBlock return the true maximum and minimum, or -1 when there is none |
| KVIndexer.CollectBatch | indexer/kv_indexer.go:58-119 | the loops over transactions and messages build exactly the batch of the block's entries, which `BlockRecords`, `BlockGasAddsUp` and `RecordedExactlyWhen` determine |
| KVIndexer.CollectTx | indexer/kv_indexer.go:60-119 | one round of the outer loop: a transaction that is not indexable is passed over, another adds its entries |
| KVIndexer.CollectMessages | indexer/kv_indexer.go:82-118 | one transaction's messages add exactly its entries to the batch, with the running index and cumulative gas |
| KVIndexer.SaveMessage | indexer/kv_indexer.go:82-118 | one message: its record is saved with the running index and gas, or left out when its events do not mention it |
| KVIndexer.Indexer.IndexBlock | indexer/kv_indexer.go:52-124 | a block's entries are written in one piece or, when the store fails, not at all |
| KVIndexer.Indexer.LastIndexedBlock | indexer/kv_indexer.go:127-129 | the last indexed block with eth transactions |
| KVIndexer.Indexer.FirstIndexedBlock | indexer/kv_indexer.go:132-134 | the first indexed block with eth transactions |
| IndexerDrivers.IndexAt | server/indexer_cmd.go:68-82 | one block is loaded and indexed, or the index is unchanged |
| IndexerDrivers.Forward | server/indexer_cmd.go:99-112 | indexes consecutive heights above the last indexed block; a command that ends well has added exactly the blocks above all indexed eth blocks up to the block store's height |
| IndexerDrivers.Backward | server/indexer_cmd.go:85-98 | indexes consecutive heights below the first indexed block; a command that ends well has added exactly the blocks from 1 on that lie below all indexed eth blocks or, when there is none, below the store's height |
| IndexerDrivers.BackwardStart | server/indexer_cmd.go:85-94 | the backward command starts one below the first indexed block, or one below the latest on an empty index |
| IndexerDrivers.BackwardSkipsLatestBlock | server/indexer_cmd.go:90-94 | from an empty index the command starts one below the latest block and never indexes that block |
| IndexerDrivers.ServiceStart | server/indexer_service.go:77-83 | the service starts behind the last indexed eth block or, when there is none, behind the latest block |
| IndexerDrivers.LatestIsLargestHeader | server/indexer_service.go:62-75 | over every schedule the latest block is the largest height that the service started with or received in a header |
| IndexerDrivers.ServiceIndexesInOrder | server/indexer_service.go:102-122 | over every schedule the service indexes, one by one and each once, exactly the heights behind its start that it did not miss, and never runs ahead of the latest block |
| IndexerDrivers.OnStart | server/indexer_service.go:77-124 | the service under any interleaving of headers, wake-ups and fetch outcomes runs the service's steps |
| IndexerDrivers.Serve | server/indexer_service.go:88-123 | the outer loop |
| IndexerDrivers.IndexNewBlocks | server/indexer_service.go:102-122 | the inner loop, with the latest block read anew in every round |
| IndexerDrivers.HandleNext | server/indexer_service.go:102-122 | one round of the inner loop: the fetch's outcome and its effect |
| IndexerDrivers.Wait | server/indexer_service.go:89-101 | a wait ends with a header, a signal or a timeout, and indexes nothing |
| IndexerDrivers.FailureThenSuccessLeavesGap | server/indexer_service.go:118-121 | an indexing failure followed by a success leaves a gap |
| IndexerDrivers.ServiceLeavesNoGapIff | server/indexer_service.go:102-122 | from a covered start a run of the service leaves no gap if and only if no height that it stepped past, and that is not indexed, lies between indexed eth blocks |
| IndexerDrivers.ErrorMeansFailedFetch | server/indexer_service.go:108-117 | the error flag is up exactly when some fetch of the schedule has failed |
| IndexerDrivers.FetchFailureIsAbsorbing | server/indexer_service.go:89-100 | once a fetch has failed the service indexes nothing more, whatever happens |
| IndexerDrivers.FailedFetchIsNeverRetried | server/indexer_service.go:92-100 | the smallest case: block 1 can be indexed, and after one failed fetch it never is, whatever follows |
| IndexerDrivers.CatchesUpIffNoFetchFailed | server/indexer_service.go:88-123 | after any schedule the service can still catch up if and only if none of its fetches has failed |
| IndexerDrivers.SessionsLeaveNoGapIff | server/indexer_service.go:77-124 | any sequence of forward, backward and service sessions, each stopped anywhere, leaves no gap if and only if no height that the service stepped past, and no session indexed, lies between indexed eth blocks |
| IndexerDrivers.SessionsLeaveNoGap | server/indexer_service.go:77-124 | in particular there is no gap when the service never fails to index |
| StateJournal.UndoTo | x/vm/statedb/journal.go:84-97 | undoing shortens the journal to the snapshot and touches neither events nor revisions |
| StateJournal.UndoInTwoSteps | x/vm/statedb/journal.go:84-97 | undoing in two steps is undoing at once |
| StateJournal.RestoredBelow | x/vm/statedb/journal.go:84-97 | undoing to an earlier point does not see what was done later |
| StateJournal.SetBalanceRestores | x/vm/statedb/journal.go:228-230 | undoing a balance change restores every balance |
| StateJournal.TouchRestores | x/vm/statedb/statedb.go:385-409 | loading or creating an object can be undone |
| StateJournal.ChangeDirties | x/vm/statedb/statedb.go:470-487 | adding or subtracting loads the account; it becomes dirty exactly when the amount is not zero or the account had to be created, and no other account does |
| StateJournal.CallEntryRestores | x/vm/statedb/journal.go:190-194 | whatever a precompile did to the bank, undoing its journal entry brings the old bank back |
| BalanceMirror.EventTellsTheStep | precompiles/common/balance_handler.go:71-136 | the event of a bank step parses, and says exactly how the 18-decimal balance changes |
| BalanceMirror.ApplyMirrors | precompiles/common/balance_handler.go:71-136 | a bank step and the replay of its event move the bank and the EVM balance alike, without wrapping around |
| BalanceMirror.ApplyRestores | precompiles/common/balance_handler.go:71-136 | every replayed event can be undone |
| BalanceMirror.ReplayMirrors | precompiles/common/balance_handler.go:68-139 | replaying the events of an action on a mirrored bank succeeds, never wraps around and mirrors the bank the action left |
| BalanceMirror.ReplayAppliesInOrder | precompiles/common/balance_handler.go:68-139 | a replay applies every event from its start on once and in order; a failed one applies the first few |
| BalanceMirror.ReplaySucceedsIff | precompiles/common/balance_handler.go:68-139 | a replay succeeds if and only if every event can be read: the address parses and, unless it is blocked, so does an amount that fits into 256 bits |
| BalanceMirror.ReplayAddsUp | precompiles/common/balance_handler.go:68-139 | it then changes every balance by the sum of what the events say, up to a multiple of 2^256 |
| BalanceMirror.ReplayLeavesBlocked | precompiles/common/balance_handler.go:68-139 | a replay, successful or not, leaves the balances of blocked addresses alone |
| PrecompileCalls.CommitMirrors | x/vm/statedb/statedb.go:727-751 | committing the dirty balances makes the cached bank agree with every unblocked EVM balance |
| PrecompileCalls.ActionMirrors | precompiles/common/precompile.go:104-126 | an action on a mirrored bank followed by the replay of its events leaves the EVM mirroring the bank, without underflow and with each event applied once |
| PrecompileCalls.RunMirrors | precompiles/common/precompile.go:57-126 | a call succeeds exactly when it is admitted, committed, executed and paid for; then every unblocked EVM balance is the bank balance, no subtraction underflowed, and exactly the action's own events were replayed, none of the commit's |
| PrecompileCalls.RunRestores | precompiles/common/precompile.go:69-84 | whatever the outcome, undoing the journal restores the state before the call |
| PrecompileCalls.CallKeepsInv | precompiles/common/precompile.go:48-126 | a call keeps the agreement in the current state and in every state that can be reverted to; a failed call leaves the state as it was |
| PrecompileCalls.RevertKeepsInv | x/vm/statedb/statedb.go:693-711 | reverting to any snapshot keeps the agreement |
| PrecompileCalls.ExecKeepsInv | precompiles/common/precompile.go:48-126 | every operation of a transaction keeps the agreement |
| PrecompileCalls.EveryCallMirrors | precompiles/common/precompile.go:48-126 | in every run of balance changes, snapshots, reverts and calls, each successful call leaves the EVM mirroring the bank |
| PrecompileCalls.TransactionEndsMirrored | x/vm/statedb/statedb.go:715-722 | the commit that ends the transaction writes a bank that the EVM mirrors |
| PrecompileCalls.EventsAreAppliedOnce | precompiles/common/balance_handler.go:46-48 | in no run is an event applied twice |
| PrecompileRuntime.StateDB.GetOrNewStateObject | x/vm/statedb/statedb.go:368-391 | loads an object from the transaction's context or creates an empty one |
| PrecompileRuntime.StateDB.AddBalance | x/vm/statedb/statedb.go:470-476 | adds in 256 bits and journals the old balance |
| PrecompileRuntime.StateDB.SubBalance | x/vm/statedb/statedb.go:479-488 | subtracts in 256 bits and journals the old balance |
| PrecompileRuntime.StateDB.TakeSnapshot | x/vm/statedb/statedb.go:685-690 | records the journal's length |
| PrecompileRuntime.StateDB.UndoLast | x/vm/statedb/journal.go:84-97 | one round of the undo loop: the last journal entry is reverted and dropped |
| PrecompileRuntime.StateDB.RevertToSnapshot | x/vm/statedb/statedb.go:693-711 | the loop over the journal from its end is the undo function, and later snapshots are dropped |
| PrecompileRuntime.BalanceHandler.BeforeBalanceChange | precompiles/common/balance_handler.go:46-48 | remembers how many events there are |
| PrecompileRuntime.BalanceHandler.AfterBalanceChange | precompiles/common/balance_handler.go:68-139 | the loop over the new events is the replay, up to the first that does not parse |
| PrecompileRuntime.ApplyEvent | precompiles/common/balance_handler.go:72-135 | one round: blocked addresses are passed over before the amount is parsed, and signs decide between adding and subtracting |
| PrecompileRuntime.RunNativeAction | precompiles/common/precompile.go:57-126 | snapshot entry, commit, event count, action, gas and replay in the source's order, with its early returns |
| PreciseBank.SubFraction | x/precisebank/keeper/send.go:267-293 | a fraction after a subtraction stays below one coin and differs by the amount up to the coin it borrows |
| PreciseBank.AddFraction | x/precisebank/keeper/send.go:298-320 | a fraction after an addition stays below one coin and differs by the amount up to the coin it carries |
| PreciseBank.IntegersMove | x/precisebank/keeper/send.go:188-246 | the integer coins of sender, receiver and reserve after the four cases of borrow and carry |
| PreciseBank.SendIsExact | x/precisebank/keeper/send.go:137-262 | between two accounts a send goes through if and only if the sender's balance covers it and the reserve has a coin when the receiver's fraction carries without the sender borrowing; it then moves exactly the amount and leaves the backing unchanged |
| PreciseBank.BackedReserveGives | x/precisebank/keeper/send.go:226-246 | a reserve that backs the fractions of both parties always has that coin |
| PreciseBank.EverySend | x/precisebank/keeper/send.go:137-262 | every send: between two accounts under the condition above, moving exactly the amount; to oneself always, moving nothing; from or to the reserve when the sender's whole coins cover those sent, moving only these; no balance of a third account other than the reserve changes |
| PreciseBank.ReserveSendMovesCoins | x/precisebank/keeper/send.go:143-154 | a send of the reserve account moves whole coins and changes no other balance |
| ReserveBacking.SendKeepsTotal | x/precisebank/keeper/send.go:137-262 | every send among any number of accounts and the reserve turns what the reserve pays out from remainder into supply, and keeps all fractions below one coin |
| ReserveBacking.RunsKeepTotal | x/precisebank/keeper/send.go:137-262 | over every run of sends, those of the reserve included, supply and remainder together are constant, and the reserve backs all fractions if and only if it has paid out no more than its first remainder |
| ReserveBacking.HoldersKeepBacking | x/precisebank/keeper/send.go:137-262 | while only holders send, nothing is paid out and the backing lasts |
| ReserveBacking.EverySendOfARun | x/precisebank/keeper/send.go:137-262 | in every such run a send between two holders goes through if and only if the sender's balance covers it and the reserve can give the coin it may ask for, which is sure while the reserve has not paid out more than its first remainder; otherwise nothing changes |
| ReserveBacking.EmptyReserveBlocksSend | x/precisebank/keeper/send.go:226-246 | a reserve that has sent its only coin away makes a send fail although the sender owns the amount |
| PrecompileSend.SendMovesEvmBalances | precompiles/common/precompile.go:57-126 | a precompile that sends coins can be carried out exactly when the send is affordable, for an unblocked sender and a reserve that backs both fractions exactly when its EVM balance covers the amount; it then shifts exactly that amount between the EVM balances of the unblocked parties and changes no other unblocked one |
| FeeChecker.FeeCapCoversBase | ante/evm/fee_checker.go:97-100 | the truncated fee cap reaches the base fee exactly when the offer covers the base fee for all gas |
| FeeChecker.ChargeIsBounded | ante/evm/fee_checker.go:102-111 | an accepted transaction pays at least the base fee for all its gas and at most its offer |
| FeeChecker.TipIsCapped | ante/evm/fee_checker.go:176-178 | the price above the base fee is the smaller of the tip cap and the room under the fee cap, as the Specification section of EIP-1559 has it |
| FeeChecker.ShortfallWhenCapBinds | ante/evm/fee_checker.go:97-111 | when the fee cap binds, the charge misses the offer by exactly the whole units in the remainder of the division by gas |
| FeeChecker.CapChargesTheOffer | ante/evm/fee_checker.go:97-111 | the whole offer is charged if and only if that remainder is below one unit; always for gas up to 10^18, and short by at most 18 units for any uint64 gas |
| FeeChecker.EighteenUnitsCanBeLost | ante/evm/fee_checker.go:97-111 | the bound of 18 units is reached: with the largest gas and no base fee an offer of 18 units is accepted and charged nothing |
| FeeChecker.ChargeAndPriorityAreMonotone | ante/evm/fee_checker.go:97-117 | offering more or a larger tip lowers neither the charge nor the priority |
| FeeChecker.PriorityIsDocumentedIff | ante/evm/fee_checker.go:112-117 | the priority is the documented one, the effective price over the reduction, if and only if the base fee fits into what the division drops or both are cut off at the largest int64 |
| FeeChecker.PriorityIsNotDocumented | ante/evm/fee_checker.go:27-27 | a price of one reduction with a base fee of one has priority zero where one is documented |
| FeeChecker.CheckAcceptsCoveredFees | ante/evm/fee_checker.go:60-119 | accepted exactly with a non-negative tip, some gas and an offer that covers the base fee; the charge lies between base fee and offer and the priority is an int64 |
| FeeChecker.CheckChargesThePrice | ante/evm/fee_checker.go:60-119 | the price is the smaller of tip plus base fee and the offer per gas; the charge is the least whole amount that covers it for all gas, and the priority is the price above the base fee over the reduction, rounded down and cut off at the largest int64; a nil or disabled base fee is zero |
| FeeChecker.CheckErrors | ante/evm/fee_checker.go:83-100 | each error with its exact condition, in the source's order |
| FeeChecker.FirstOptionDecides | ante/evm/fee_checker.go:70-81 | the first dynamic-fee option decides the tip cap, a nil price counting as zero |
| FeeChecker.NoOptionMeansNoCap | ante/evm/fee_checker.go:67-68 | without such an option the cap is the largest int64 |
| FeeChecker.FindTip | ante/evm/fee_checker.go:67-81 | the loop over the options computes the tip cap |
| FeeChecker.CheckFee | ante/evm/fee_checker.go:60-119 | the check with its errors in the source's order |
| FeeChecker.GetTxPriority | ante/evm/fee_checker.go:154-172 | the loop over the fees computes the fallback priority |
| FeeChecker.FeePriorityIsQuotient | ante/evm/fee_checker.go:157-163 | the priority of one fee is the fee over gas times reduction, rounded down and cut off at the largest int64 |
| FeeChecker.PriorityAfterLastZero | ante/evm/fee_checker.go:154-172 | the fallback priority is the smallest one behind the last zero, and zero when that stands last |
| FeeChecker.ZeroPriorityIff | ante/evm/fee_checker.go:157-163 | a fee has priority zero exactly when it is below the reduction for all gas |
| FeeChecker.PriorityIsMinimumIff | ante/evm/fee_checker.go:154-172 | the fallback priority is the smallest of the fees' priorities if and only if a fee below the reduction for all gas occurs only if the last fee is one |
| FeeChecker.ZeroIsForgotten | ante/evm/fee_checker.go:154-172 | fees of 1 and 1000000 for one unit of gas: the first one's priority, zero, is forgotten |
| DenomTrace.SendKeepsReduced | ibc/utils.go:40-64 | a packet keeps a reduced trace reduced |
| DenomTrace.RoundTripRestoresIff | ibc/utils.go:40-64 | there and back restores the token if and only if the first send does not remove a hop whose successor is the way back |
| DenomTrace.WalkAndReverseRestore | ibc/utils.go:40-64 | from a reduced trace every trace along a walk is reduced, and the walk followed by its reverse restores the token, amount included |
| DenomTrace.TraceIsReducedWalk | ibc/utils.go:40-64 | the trace of a native token after any walk is the list of arrivals of the freely reduced walk |
| DenomTrace.SameDenomIffSameReducedWalk | ibc/utils.go:40-64 | two routes to the same chain give the same denomination if and only if they reduce to the same walk, although channel identifiers are unique only per chain |
| Authz.IsDisabledMsg | ante/cosmos/authz.go:81-89 | finds a disabled type exactly when it is listed |
| Authz.CheckDisabledMsgs | ante/cosmos/authz.go:44-77 | the recursive loop with its level per MsgExec is the filter |
| Authz.CheckAcceptsExactly | ante/cosmos/authz.go:44-77 | the filter accepts if and only if every message at every depth decodes, no grant and no executed message is of a disabled type, and the starting level plus the ordinals of the MsgExecs on every path stays below 7 |
| Authz.RejectMessages | ante/cosmos/reject_msgs.go:23-33 | accepts exactly when no top-level message is a MsgEthereumTx |
| Authz.NoEthereumTxAnywhere | ante/cosmos.go:24-28 | a transaction that passes both checks holds no MsgEthereumTx and no grant for one, at any depth |
| Authz.NestingAndSiblingsAlike | ante/cosmos/authz.go:48-58 | from the top of a transaction n nested MsgExecs pass if and only if n is at most 5, and so do n empty ones side by side |

## Left out

- KVIndexer.CollectBatch: decoding of transactions and results is an input; a block is a list of transactions with their decoded messages and gas.
- PrecompileCalls.CommitMirrors: balances of blocked addresses, among them the module accounts that minting and burning move, are left open.
- PrecompileRuntime.RunNativeAction: the count of precompile calls, the gas meter and the success of commit and action are inputs.
- TypeMap.CreateEIP712Types: recovery from panics is not modelled; no operation of the model can panic.
- Precompiles without a balance handler, and native actions that call back into the EVM.
- Self-destructed accounts, contract storage, code, nonces, logs and access lists of the state database: a change to them only marks an address as dirty.
- Vesting accounts, whose spendable balance is smaller than their balance.
- Minting and burning in x/precisebank; the model takes their result on the account.
- The hash that names an IBC denomination, and the parsing of packet data.
- Minimum gas prices of validators, and fees before the London fork apart from their priority.
- The bound of 315 bits on decimals.
- Signatures, hashing and the legacy EIP-712 path, which is driven by reflection.
- The reserver, the CheckTx handler and the routing of the mempool: small map updates, not modelled.
- The other generated protobuf codecs, which follow the same pattern with fewer fields.
- Application wiring, command line, JSON-RPC, websockets, metrics and configuration.
