# N42: a verified model

A Dafny 4.11 model of the parts of the N42 node where the reasoning is hardest, with proofs. `dafny verify dfyconfig.toml` checks all of it.

| component | files | source |
|---|---|---|
| contract ABI codec | `AbiTypes`, `AbiLayout`, `AbiEncode`, `AbiDecode`, `AbiExact`, `AbiRoundTrip`, `AbiStable`, `AbiInjective` | `accounts/abi` |
| selector parser and `NewType` | `SelectorParse`, `SelectorTypes`, `SelectorExact`, `SelectorRoundTrip`, `SelectorRebuild`, `NewTypeExact` | `accounts/abi` |
| multi-key lock | `Multilock`, `MultilockSafety`, `MultilockProgress` | `utils/lock.go` |
| head changes and reorganisation | `Lru`, `ChainStore`, `BlockObjects`, `ReorgSteps`, `ForkWalk`, `ChainState`, `ChainWrite`, `ChainRuns`, `ChainOutcomes`, `Blockchain` | `internal/blockchain.go`, `internal/blockchain_reader.go`, `internal/forkchoice.go` |
| gas and value accounting | `Intrinsic`, `Balances`, `Transition`, `Acceptance`, `Conservation`, `Process`, `StateTransition` | `internal/state_transition.go`, `internal/state_processor.go` |
| keystore | `Unlock`, `Accounts`, `AccountCache`, `Wallets` | `accounts/keystore`, `accounts/manager.go` |
| ancestor hashes, configuration checks | `HashFn`, `Compat` | `internal/evm.go`, `params/config.go` |

`Bytes`, `Lex`, `Url` and `Wrappers` hold byte strings, string and URL order with `sort.Search`, and result types.

Loops and updated objects keep that form: methods and classes, each proved against a function of its inputs or of the old state. The theorems are lemmas about those functions. Besides what operations keep, the theorems say what they achieve: exactly which inputs are accepted, which block becomes the head, what each account pays, which bytes spell which value, by conditions that do not name the operation's own definition. The two protocols (multi-key lock, timed unlock) are transition systems whose steps are the points where goroutines can interleave.

## What was found

The laws below hold as the source states them only under a condition. Each has a lemma with a concrete input that breaks it and an if-and-only-if for all inputs.

- ABI round trip. A component of zero size (`uint256[0]`, an empty tuple) is decoded only when 32 bytes follow its position (`accounts/abi/unpack.go:193`), and integers of more than 64 bits are packed modulo 2^256. `AbiRoundTrip.RoundTrip` states exactly when a value comes back; `EmptyArrayLast`, `EmptyArrayFirst` and `NegativeUintWraps` show both sides.
- Selectors. Only tuples with fields, bare or under one `[]`, are in the parser's grammar. `SelectorRebuild.SignatureRoundTrip` proves that those signatures are rebuilt unchanged and that every other signature is refused. `ParseSelector` panics on a bare identifier (`accounts/abi/selector_parser.go:88` indexes the empty string). `TupleArrayRefused` and `SelectorTypes.BareNamePanics` are instances, `PanicsOnBareName` the exact condition. Any byte but `)` separates two types in a list; `SelectorExact.SelectExactly` states the whole language that is accepted.
- Reorganisation. `internal/blockchain.go:1096` compares two `*uint256.Int` pointers where its comment and the mirror branch compare heights. The model follows the code and tracks block objects: the head is held by one object, and `GetBlock` hands out the object in the block cache or a newly decoded one. `ChainRuns.MovesExactly` states when the head can move: to a child, to a lower block, to itself as the same object, or to a descendant whose walk comes upon the head's object, which must be the cached one and must not be pushed out of the 1024 entries during the walk. Blocks from the network come as objects of their own; over every such run only children of the head and lower blocks replace it (`RunRefusesBranches`, `OwnWriteFailsExactly`). `HeavierBranchRefused` and `GrandchildRefused` are instances. Only blocks re-read from the cache, as `insertSideChain` and `recoverAncestors` pass on, can make the head a cached object.
- Total difficulty cache. `GetTd` remembers a missing value too, and the fork choice dereferences what it gets (`internal/forkchoice.go:81`). `ChainWrite.PoisonedBy` states exactly which query leaves a nil for a stored block, `ChainRuns.PanicsExactly` when a block write panics, `RunClean` that no write of a run does unless a stored block is asked for under a wrong number. `WrongNumberPanics` is an instance.
- Conservation. With `NoBaseFee` and no fees the checks are skipped but a fee collector is still credited. `Conservation.ConservedExactlyWhen` gives the exact condition, `CallMints` an instance. The access list part of the intrinsic gas is added without an overflow check: `Intrinsic.TruePriceExactly` states when the result is the true price, and `AccessListWraps` builds a list, of slices that share one backing array and fit in memory, for which it is zero.
- Keystore. An account whose address changes under a retained URL is dropped from the wallet list and not re-added (`Wallets.RefreshExact`, `ChangedAddressLost`). `drop` of an absent wallet removes the next one (`Wallets.AbsentDrop`, `AbsentDropTakesNext`). `add` inserts an account again exactly when another account with its URL stands in front (`AccountCache.AccountCache.Add`, `AccountCache.AddedTwice`). `Lock` can return with the account unlocked: `Unlock.LockRaces` states for which concurrent `TimedUnlock`, `LockLocks` that nothing else does it.
- Configuration. Where Constantinople is scheduled after Petersburg, or not at all, `CheckCompatible` can ask for a deeper rewind than needed: `Compat.RewindsTooFarIff`.

## Assumptions

- Block and transaction hashes identify what they hash. Block objects do not share a header. A stored block leads back to genesis. A transaction occurs once on a chain (its nonce is spent). Block numbers stay below 2^64 - 1. Each database transaction is atomic, and `reorg` with the `writeHeadBlock` after it is one step.
- The EVM returns no more gas than it was given and keeps the sum of balances; its refund counter is arbitrary. Where nonces are concerned, it lowers none and raises the sender's on a contract creation. The sum of balances starts below 2^256. A header has a base fee from London on.
- Lengths of Go slices are below 2^63. Values given to the encoder have the Go type that belongs to their ABI type; `HasType` takes the place of reflection.
- Headers are stored under their own hash and number, none under number 2^64 - 1.

## Model

| member | source | states |
|---|---|---|
| AbiTypes.TypeSizeWhole | accounts/abi/type.go:383-398 | Head sizes are whole words, through any nesting of static arrays and tuples |
| AbiTypes.DynamicIs | accounts/abi/type.go:363-373 | A type is dynamic exactly when a string, byte string or slice is among what it holds in place |
| AbiLayout.FrameMatchesSpec | accounts/abi/type.go:306-343 | The running offset of the packing loops yields the layout of the "Formal Specification of the Encoding" of the Contract ABI Specification: all heads, each dynamic one the distance to its tail, then all tails |
| AbiLayout.WrittenSnoc | accounts/abi/type.go:326-342 | One round of a packing loop keeps what has been written: heads so far, tails so far, next offset |
| AbiLayout.Unplace | accounts/abi/unpack.go:256-297 | A frame found at a position has its first head there and its first tail at the offset that head names |
| AbiEncode.ElementLayout | accounts/abi/pack.go:31-71 | An elementary value takes one word, or a length word, its bytes, and zeros up to the next multiple of 32 bytes |
| AbiEncode.EncWhole | accounts/abi/type.go:269-348 | Whatever the type and the value, the encoding is a multiple of 32 bytes long |
| AbiEncode.EncSize | accounts/abi/type.go:383-398 | A static value is packed into exactly `getTypeSize` bytes |
| AbiEncode.EncFrameMatchesSpec | accounts/abi/argument.go:222-262 | The packed argument list is the specified encoding of a tuple |
| AbiEncode.Pack | accounts/abi/type.go:269-348 | `pack` writes the encoding of the value, for every type |
| AbiEncode.PackList | accounts/abi/type.go:277-305 | The loop over slice and array elements writes the frame of the list behind the length |
| AbiEncode.PackTuple | accounts/abi/type.go:306-343 | The loop over tuple fields writes the frame of the tuple |
| AbiEncode.PrefixSize | accounts/abi/argument.go:233-236 | The first offset is the sum of the head sizes |
| AbiEncode.PackArguments | accounts/abi/argument.go:222-262 | `Arguments.Pack` refuses a wrong number of values and else writes the frame of the arguments, in whole words |
| AbiDecode.LengthPrefix | accounts/abi/unpack.go:256-283 | On success the whole body lies inside the data; the big-integer checks are exact |
| AbiDecode.TuplePointer | accounts/abi/unpack.go:286-297 | On success the offset lies inside the data |
| AbiDecode.ArrayPointer | accounts/abi/unpack.go:225-234 | On success the offset, its low 64 bits only, lies inside the data |
| AbiDecode.ToGoType | accounts/abi/unpack.go:192-253 | `toGoType` is the recursive decoding function, errors included |
| AbiDecode.ForEachUnpack | accounts/abi/unpack.go:121-158 | The element loop decodes elements side by side, each `getTypeSize` after the last |
| AbiDecode.ForTupleUnpack | accounts/abi/unpack.go:160-188 | The word index plus `virtualArgs` is always the sum of the preceding head sizes |
| AbiDecode.VirtualArgs | accounts/abi/unpack.go:168-184 | The virtual arguments of a static array or tuple make up its head size in words |
| AbiDecode.ElementsAreFields | accounts/abi/unpack.go:121-188 | A list decodes as the tuple of that many equal fields |
| AbiDecode.FilterNonIndexed | accounts/abi/argument.go:64-72 | The non-indexed arguments in order |
| AbiDecode.NonIndexedConcat | accounts/abi/argument.go:64-72 | The filter takes lists apart in order; each argument counts for itself (`NonIndexedOne`) |
| AbiDecode.NonIndexedOne | accounts/abi/argument.go:64-72 | An argument counts for its type exactly if it is not indexed |
| AbiDecode.UnpackValues | accounts/abi/argument.go:184-213 | Decodes the non-indexed arguments as fields from the start of the data |
| AbiDecode.Unpack | accounts/abi/argument.go:80-88 | Empty data is an error exactly when values are expected |
| AbiExact.DecodesExactly | accounts/abi/unpack.go:121-297 | From arbitrary bytes, a value of any type is decoded if and only if the words, offsets and lengths spell it, stated without an order of reading |
| AbiExact.UnpackExactly | accounts/abi/argument.go:184-213 | `UnpackValues` answers exactly with the values the data spells, each where the heads before it end |
| AbiExact.IntegerExactly | accounts/abi/unpack.go:36-74 | The one integer of the width that agrees with the word |
| AbiExact.BoolExactly | accounts/abi/unpack.go:76-92 | A boolean is read from the words zero and one and from no other |
| AbiExact.PrefixErrors | accounts/abi/unpack.go:256-283 | Each error of a length prefix if and only if its offset or its length is out of range in that way |
| AbiExact.LeafErrors | accounts/abi/unpack.go:236-252 | Which elementary values can be refused, and with which error |
| AbiExact.CompositeErrors | accounts/abi/unpack.go:192-235 | A short head, a bad offset and missing room for the elements each give their error |
| AbiExact.FirstFieldFails | accounts/abi/unpack.go:160-188 | A list of fields is refused with the error of the first field that is, those before it decoding |
| AbiRoundTrip.ReadWrittenInteger | accounts/abi/unpack.go:36-74 | Reading a packed integer gives it back modulo its width, signed or not |
| AbiRoundTrip.LeafRoundTrip | accounts/abi/unpack.go:192-253 | An elementary value found at its place decodes to its normal form |
| AbiRoundTrip.FrameRoundTrip | accounts/abi/unpack.go:121-253 | A frame anywhere in the data decodes to the normal forms of its values exactly when its zero-size components have 32 bytes behind them |
| AbiRoundTrip.ToGoRoundTrip | accounts/abi/unpack.go:192-253 | The same for one value of any type, by mutual induction on types and values |
| AbiRoundTrip.UnpackPacked | accounts/abi/argument.go:184-262 | Decoding a packed argument list succeeds exactly with slack, and then yields the normal forms |
| AbiRoundTrip.RoundTrip | accounts/abi/argument.go:184-262 | `UnpackValues(Pack(vs)) == vs` if and only if every integer fits its word and the zero-size components have slack |
| AbiRoundTrip.RoundTripNoEmpty | accounts/abi/argument.go:184-262 | Without zero-size components every representable value comes back, through any nesting |
| AbiInjective.PackInjective | accounts/abi/argument.go:222-262 | Different representable values of the same types never pack to the same bytes, zero-size components included |
| AbiInjective.ValueUnique | accounts/abi/type.go:269-348 | Two values of a type found at the same place of the same bytes are equal |
| AbiRoundTrip.EmptyArrayLast | accounts/abi/unpack.go:193-195 | `uint256[0]` as the last argument does not decode |
| AbiRoundTrip.EmptyArrayFirst | accounts/abi/unpack.go:193-195 | The same type before another argument does |
| AbiRoundTrip.NegativeUintWraps | accounts/abi/pack.go:74-85 | A `uint256` of -1 comes back as 2^256 - 1 |
| AbiStable.Stable | accounts/abi/unpack.go:192-253 | A successful decoding gives the same value on every extension of the data |
| AbiStable.StableFields | accounts/abi/unpack.go:160-188 | The same for tuples and argument lists |
| AbiStable.DecodesToType | accounts/abi/unpack.go:192-253 | Whatever the bytes, a decoded value has the type asked for |
| SelectorParse.ParseToken | accounts/abi/selector_parser.go:41-58 | Splits off the longest token, or refuses |
| SelectorParse.ParseElementaryType | accounts/abi/selector_parser.go:64-84 | A token and all the brackets after it, or an error on an open bracket |
| SelectorParse.ParseCompositeType | accounts/abi/selector_parser.go:86-109 | The list in parentheses and one `[]` after it; panics on empty input only; terminates |
| SelectorParse.ParseType | accounts/abi/selector_parser.go:111-120 | Every success consumes input, so the mutual recursion ends |
| SelectorExact.TypeExactly | accounts/abi/selector_parser.go:64-120 | The parser takes a string as a tree of types, with a rest, if and only if the string spells that tree before that rest |
| SelectorExact.SelectExactly | accounts/abi/selector_parser.go:151-176 | Exactly which strings are selectors, and as what: an identifier and `()`, or an identifier and a spelled list |
| SelectorExact.Alphabet | accounts/abi/selector_parser.go:29-58 | `$` and `_` belong to names only, and a digit starts neither a name nor a type |
| SelectorTypes.AssembleArgs | accounts/abi/selector_parser.go:122-145 | Tuples by their components, tuple slices by the mark that the parser appended |
| SelectorTypes.ParseSelector | accounts/abi/selector_parser.go:151-176 | Name, argument list, nothing left over |
| SelectorTypes.PanicsOnBareName | accounts/abi/selector_parser.go:86-89 | The parser panics exactly on a selector that is an identifier and nothing else |
| SelectorTypes.BareNamePanics | accounts/abi/selector_parser.go:86-89 | The selector `f` makes the parser panic |
| SelectorTypes.NewTuple | accounts/abi/type.go:162-206 | The loop over components builds the field types and the parenthesised expression of their strings |
| SelectorTypes.NewType | accounts/abi/type.go:69-226 | The type and canonical string of a type string, brackets taken off from the right, errors included |
| SelectorRoundTrip.ElementaryIs | accounts/abi/selector_parser.go:64-84 | A printed elementary type under any brackets is read as its own text |
| SelectorRoundTrip.TypeIs | accounts/abi/selector_parser.go:111-120 | A printed type of the grammar is read as its shape, with what follows left over |
| SelectorRoundTrip.TypeFails | accounts/abi/selector_parser.go:86-120 | Any other printed type fails, or leaves a bracket on which the enclosing list fails |
| SelectorRebuild.PlainType | accounts/abi/type.go:69-161 | `NewType` rebuilds an elementary type under any brackets, with its text as the canonical string |
| SelectorRebuild.BasicExactly | accounts/abi/type.go:116-161 | Which elementary type a word with digits names, and which it does not |
| SelectorRebuild.NewTypeSound | accounts/abi/type.go:69-226 | Whatever the string, the type made of it is supported and its sizes are Go ints; the canonical string is the string itself unless a tuple is inside |
| NewTypeExact.BracketedExactly | accounts/abi/type.go:78-113 | A string with brackets makes a type exactly when they balance, the inside does, and the last cell has no digit or one run of digits |
| NewTypeExact.UnbracketedExactly | accounts/abi/type.go:114-226 | A string without brackets makes a type exactly when its first word and the digits behind it name it |
| SelectorRebuild.SignatureText | accounts/abi/method.go:93-118 | A signature as it is hashed: `setApprovalForAll(address,bool)` |
| SelectorRebuild.TypeRebuilt | accounts/abi/type.go:69-206 | `NewType` rebuilds every parsed type of the grammar |
| SelectorRebuild.SignatureRoundTrip | accounts/abi/method.go:93-118 | A printed method signature is rebuilt unchanged, name, types and text, if and only if its types are in the grammar; else it is refused |
| SelectorRebuild.TupleArrayRefused | accounts/abi/selector_parser.go:105-108 | The signature `f((bool)[3])` is refused |
| SelectorRebuild.SignatureInjective | accounts/abi/method.go:93-118 | Equal signatures have equal names and equal argument types |
| Multilock.StepKeepsInv | utils/lock.go:23-110 | Every step of Lock, Unlock, Clean and getChan keeps the invariant and panics in no case |
| MultilockSafety.RunInv | utils/lock.go:23-110 | The invariant holds in every state of every interleaving |
| MultilockSafety.MutualExclusion | utils/lock.go:23-54 | A key has at most one holder |
| MultilockSafety.HeldChannelStays | utils/lock.go:79-110 | The channel of a held key stays registered, open and empty while the collector runs |
| MultilockSafety.UnlockNeverStuck | utils/lock.go:42-54 | Unlock never sends on a full or closed channel |
| MultilockSafety.RunNeverPanics | utils/lock.go:23-98 | No step of any run sends on or closes a closed channel |
| MultilockSafety.WaitsUpward | utils/lock.go:23-38 | A blocked lock waits for a key above all keys it holds |
| MultilockSafety.WaitsForAcyclic | utils/lock.go:23-38 | The wait-for relation has no cycle in any reachable state |
| MultilockSafety.ChainEnds | utils/lock.go:23-38 | Every chain of blocked locks ends at a lock that can go on, or at the collector |
| MultilockSafety.NeverStuck | utils/lock.go:23-98 | While any lock is inside an operation, some operation can take its next step |
| MultilockProgress.HeldKeys | utils/lock.go:23-54 | A locked lock holds exactly its keys, one at rest none |
| MultilockProgress.GetsChannel | utils/lock.go:101-110 | `getChan` gives the registered channel, or registers a new one with its token |
| MultilockProgress.ReceiveTakes | utils/lock.go:28-35 | A receive with the token acquires the wanted key and, with the last one, the lock; from a closed channel the lock tries again |
| MultilockProgress.SendReturns | utils/lock.go:45-49 | A send gives one key back and makes it free |
| MultilockProgress.CanLock | utils/lock.go:23-38 | With its keys free a lock at rest can be locked |
| MultilockProgress.CanUnlock | utils/lock.go:42-54 | A locked lock can be unlocked, whoever waits, through its whole clean-up |
| MultilockProgress.CleanExactly | utils/lock.go:79-98 | A whole Clean, with any steps of other goroutines in between, visits every registered key and removes exactly those whose channel was free when visited |
| MultilockSafety.Unique | utils/lock.go:113-127 | The same keys, each once |
| MultilockSafety.NewMultilock | utils/lock.go:64-76 | The keys given, sorted and distinct; no lock without keys |
| ChainStore.Extend | internal/blockchain.go:945-952 | Writing a block over the indexes of its parent's chain makes them those of its own chain |
| ReorgSteps.BranchStep | internal/blockchain.go:1168-1177 | One block of the new branch written keeps both indexes right up to it and leaves the rest of the old branch |
| ReorgSteps.LookupEnd | internal/blockchain.go:1182-1184 | After the dropped transactions are deleted, the lookup index is that of the new branch, transactions of both branches included |
| ReorgSteps.CanonEnd | internal/blockchain.go:1189-1199 | After truncation the number index has nothing above the new branch |
| ForkWalk.LowerOld | internal/blockchain.go:1085-1093 | The longer old chain walked down to a height, with its blocks, its transactions and the effect on the block cache |
| ForkWalk.LowerNew | internal/blockchain.go:1094-1099 | The new chain walked down to the object of the old head, or off its end; which of the two, and the effect on the block cache |
| ForkWalk.Meet | internal/blockchain.go:1120-1145 | Both chains walked to their highest common ancestor |
| ForkWalk.FindFork | internal/blockchain.go:1084-1145 | The common ancestor and both branches; fails exactly when the new chain is not shorter and misses the old head's object |
| ForkWalk.HashDifference | common/types/hash.go:214-229 | The elements of one list that the other does not have |
| ChainState.TdIsWork | internal/blockchain.go:847-861 | A stored total difficulty is the sum of difficulties back to genesis, which counts zero, modulo 2^256 |
| ChainState.StoreStep | internal/blockchain.go:847-896 | The write transaction keeps the block tree, every total difficulty and every stored block |
| ChainState.HeadStep | internal/blockchain.go:933-952 | The head written over the indexes of its parent's chain, or of its own, makes them exactly its chain |
| ChainState.IndexUnique | internal/blockchain.go:933-952 | A chain has exactly one number index and one lookup index |
| Lru.AddIs | internal/blockchain_reader.go:93-106 | An added entry is there; any other is as it was or gone |
| Lru.UseAhead | internal/blockchain_reader.go:93-106 | One use of another key puts it in front of an entry, and pushes the entry out exactly from the last place of a full cache |
| BlockObjects.FetchOk | internal/blockchain_reader.go:88-108 | `GetBlock` keeps one object to a block in the cache, new objects being new |
| BlockObjects.Survives | internal/blockchain_reader.go:88-108 | A cached object survives a walk exactly while fewer than 1024 entries, visited blocks included, are in front of it |
| BlockObjects.MeetsObject | internal/blockchain.go:1094-1099 | A walk comes upon an object of a block exactly when it descends from the block, the object is the cached one, and it survives the walk |
| ChainWrite.ReadTdIs | internal/blockchain_reader.go:275-292 | For a stored block `GetTd` gives the true total difficulty, or nil exactly when a nil is cached |
| ChainWrite.PoisonedBy | internal/blockchain_reader.go:275-292 | A query leaves a nil for a stored block exactly when it asks for it, uncached, under a wrong number, or the nil was there and is not pushed out of the 1024 entries |
| ChainRuns.MovesExactly | internal/blockchain.go:907-913 | The exact condition, on head, block and block cache, under which the head can move |
| ChainRuns.OwnWriteFailsExactly | internal/blockchain.go:907-924 | A write from an object of its own fails exactly when the fork choice prefers a block as high as the head or higher that is not its child |
| ChainOutcomes.OrphanExactly | internal/blockchain.go:847-857 | A write fails for want of an ancestor exactly when the parent is not stored one number below |
| ChainOutcomes.WrittenExactly | internal/blockchain.go:843-930 | On a chain without a cached nil: the block becomes the head exactly when the fork choice prefers it and the head can move to it, stays beside the chain exactly when it is not preferred, and is refused otherwise with the head unchanged |
| ChainOutcomes.OwnWriteTaken | internal/blockchain.go:907-924 | A block from an object of its own becomes the head exactly when it is preferred and a child of the head or lower |
| ChainOutcomes.RunExtends | internal/blockchain.go:907-924 | In every state of a run, a written child of the head with more work is the next head |
| ChainOutcomes.RunGrows | internal/blockchain.go:843-930 | From a new chain, blocks written one upon the other each become the head, with the sum of their difficulties |
| ChainRuns.RunRefusesBranches | internal/blockchain.go:1094-1105 | Over every run of writes from objects of their own, only children of the head and lower blocks replace it |
| ChainRuns.HeavierBranchRefused | internal/blockchain.go:1094-1105 | A branch with more work that is wanted and refused |
| ChainRuns.GrandchildRefused | internal/blockchain.go:1094-1105 | A grandchild of the head that is refused |
| ChainRuns.PanicsExactly | internal/forkchoice.go:76-81 | A block write panics exactly when a nil for the head is still cached once the block's own total difficulty is |
| ChainRuns.WrongNumberPanics | internal/forkchoice.go:76-81 | On any new chain, one query for genesis under a wrong number makes the next write panic |
| ChainRuns.WrittenKeeps | internal/blockchain.go:843-930 | A block write keeps the whole invariant, loses nothing stored, and never leaves a worse head |
| ChainRuns.RunValid | internal/blockchain.go:843-930 | In every state of every run of writes and queries: block tree, total difficulties, caches, and both indexes exactly the head's chain |
| ChainRuns.RunAdvances | internal/blockchain.go:843-930 | Over every stretch of a run nothing stored is lost and the head does not get worse (less work, or as much in more blocks) |
| ChainRuns.RunTds | internal/blockchain.go:847-861 | In every state of every run a total difficulty is the sum of difficulties back to genesis, modulo 2^256 |
| ChainRuns.RunClean | internal/forkchoice.go:76-81 | From a new chain no write of a run panics unless a stored block is asked for under a wrong number |
| ChainRuns.InitialRuns | internal/genesis_block.go:71-95 | A new chain satisfies the invariant, has no nil cached, and its head is no cached object |
| ChainWrite.ForkChoiceOrder | internal/forkchoice.go:76-108 | The fork choice takes a head with more work, or as much in fewer blocks, keeps its own when that is the better one, and asks preference and coin only when both are equal |
| Blockchain.BlockChain.constructor | internal/genesis_block.go:71-95 | A chain of genesis alone, its caches empty, satisfies all that runs start from |
| Blockchain.BlockChain.WriteHeadBlock | internal/blockchain.go:933-960 | Head, number index and one lookup per transaction are written |
| Blockchain.BlockChain.WriteBranch | internal/blockchain.go:1168-1177 | The new branch is written, lowest block first, all but its head |
| Blockchain.BlockChain.Reorg | internal/blockchain.go:1065-1208 | On success number index and lookup index are exactly the chain below the new head; on failure only the block cache changed; success exactly as the walk finds the fork |
| Blockchain.BlockChain.GetTd | internal/blockchain_reader.go:275-292 | The cached value, else the stored one, remembered even when missing; true for a stored block unless a nil is cached |
| Blockchain.BlockChain.GetBlock | internal/blockchain_reader.go:88-108 | The cached object whatever the number, a new object for a block stored under that number, or nothing; what is handed out is cached from then on |
| Blockchain.BlockChain.StoreBlock | internal/blockchain.go:847-901 | Total difficulty, block and cache entry are written unless the parent is unknown |
| Blockchain.BlockChain.MoveHead | internal/blockchain.go:907-924 | The head moves exactly when it can, and then both indexes are exactly the new head's chain |
| Blockchain.BlockChain.ChooseHead | internal/forkchoice.go:76-108 | Reads both total difficulties, panics on a nil, else decides and moves the head as specified |
| Blockchain.BlockChain.Insert | internal/blockchain.go:843-924 | Tables, head and caches after every outcome are those of the specified write |
| Blockchain.BlockChain.WriteBlockWithState | internal/blockchain.go:843-930 | State and result are those of the write that the runs are made of; every outcome by its exact condition; invariant kept, nothing lost, head no worse, future block forgotten on success only |
| Balances.Wraps | internal/state_transition.go:434-452 | Credits and debits are arithmetic modulo 2^256 on the one account, and products are too (`MulWraps`) |
| Balances.TotalSet | internal/state_transition.go:480-489 | One balance set changes the sum of balances by the difference |
| Intrinsic.IntrinsicGas | internal/state_transition.go:134-181 | The price of the message in unbounded arithmetic: an overflow error exactly when the data price passes 2^64 - 1, and the access list price added modulo 2^64 |
| Intrinsic.WordSize | internal/state_transition.go:503-509 | The number of words is the size rounded up, for every 64-bit size |
| Intrinsic.StorageKeys | common/transaction/access_list.go:34-40 | The sum of the key counts |
| Intrinsic.PriceIs | internal/state_transition.go:134-181 | The price by its rates: the number of bytes that are not zero and that are, words of init code, addresses and keys of the access list |
| Intrinsic.TruePriceExactly | internal/state_transition.go:134-181 | The intrinsic gas is the true price of the message if and only if that is below 2^64; it fails exactly when the data price alone is not |
| Intrinsic.AtLeastTxGas | internal/state_transition.go:134-181 | Then no message costs less than a transfer |
| Intrinsic.AccessListWraps | internal/state_transition.go:176-179 | An access list of allocatable slices for which the intrinsic gas is zero |
| Transition.Refunded | internal/state_transition.go:480-486 | The refund is at most the counter and at most the share of the gas used, and less than the gas used |
| Transition.RefundedIs | internal/state_transition.go:480-486 | The refund is the smaller of the counter and the largest amount within the share |
| Transition.GasLeft | internal/state_transition.go:480-500 | Gas left never exceeds the gas bought, and is less when any was used |
| Acceptance.AcceptedExactly | internal/state_transition.go:228-391 | A message is accepted if and only if nonce, code, fees, funds, gas pool and intrinsic gas are all right, in plain conditions |
| Acceptance.RefusedExactly | internal/state_transition.go:228-391 | Each error if and only if its own condition fails first |
| Acceptance.TransferAccepted | internal/state_transition.go:282-391 | A transfer that is accepted |
| Acceptance.StartedIs | internal/state_transition.go:255-424 | The EVM starts with the gas paid for and, for a call, the sender's nonce one higher; nothing else differs |
| Acceptance.UsedExactly | internal/state_transition.go:383-500 | The gas used is what the EVM did not return, less a refund that is the whole counter or the largest within a fifth, before London half, of the gas spent |
| Acceptance.EffectiveTipIs | internal/state_transition.go:434-441 | The smaller of the tip and what the fee cap leaves over the base fee |
| Acceptance.BalancesExactly | internal/state_transition.go:332-478 | Account by account: beyond what the EVM moves, the sender pays gas used times gas price, the coinbase earns the tip, the collector the base fee, and no other balance changes |
| Conservation.TxAcceptedExactly | internal/state_transition.go:228-391 | A transaction is accepted if and only if its plain conditions hold; a balance that covers it rules out every overflow |
| Transition.ValueCovered | internal/state_transition.go:228-267 | After buying gas the sender can cover the value sent, and the sum of balances fell by the price of the gas |
| Transition.TransitNonces | internal/state_transition.go:282-294 | A message that succeeds spends its nonce and lowers nobody's |
| Transition.NoReplay | internal/state_transition.go:282-294 | A message that succeeded is refused in every later world |
| Process.NoncesIncrease | internal/state_processor.go:85-103 | In an accepted block the nonces of a sender increase strictly, so no transaction occurs twice |
| Transition.NoProductWraps | internal/state_transition.go:425-453 | No product of the settlement wraps 2^256 |
| Transition.TransitTotal | internal/state_transition.go:332-478 | The sum of balances falls by the cost of the gas used less what the settlement pays out |
| Conservation.EffectivePrice | common/transaction/transaction.go:688-695 | The effective gas price never exceeds the fee cap |
| Conservation.EffectivePriceIs | common/transaction/transaction.go:688-695 | The smaller of the fee cap and the sum, modulo 2^256, of tip and base fee |
| Conservation.SomeGasUsed | internal/state_transition.go:388-424 | A message that succeeds uses some gas and no more than it bought |
| Conservation.PriceFits | internal/state_transition.go:228-279 | Tip and base fee of a message that passes the checks do not wrap |
| Conservation.PriceSplits | internal/state_transition.go:434-441 | The gas price is the effective tip plus the base fee |
| Conservation.ValueConserved | internal/state_transition.go:332-478 | The sum of balances is unchanged before London or with a fee collector, and else falls by gasUsed * baseFee |
| Conservation.SkippedFees | internal/state_transition.go:308-315 | With the fee checks skipped the sum of balances rises by what the collector gets |
| Conservation.ConservedExactlyWhen | internal/state_transition.go:308-453 | With a fee collector the sum is kept if and only if the fees are checked or the base fee is zero |
| Conservation.CallMints | internal/state_transition.go:449-453 | A call for which the collector is paid out of nothing |
| Process.PoolAndUsed | internal/state_processor.go:64-103 | Through every successful prefix of a block, gas pool plus gas used is the block gas limit |
| Process.RunExactly | internal/state_processor.go:85-99 | The first transactions of a block run through if and only if each is accepted after those before it |
| Process.RunSteps | internal/state_processor.go:137-190 | Each transaction is applied to what those before it left, and its receipt has its gas and its status |
| Process.ReceiptsAddUp | internal/state_processor.go:167-190 | Cumulative gas is the running sum of the receipts' gas, each positive |
| Process.CumulativeIncreases | internal/state_processor.go:167-190 | Cumulative gas increases strictly along the receipts |
| Process.BlockConserves | internal/state_processor.go:63-131 | Over a block the sum of balances falls by exactly the base fee of all gas used, or not at all |
| StateTransition.GasPool.AddGas | common/gaspool.go:34-40 | Panics exactly when the sum would pass 2^64 - 1 |
| StateTransition.GasPool.SubGas | common/gaspool.go:44-50 | Fails exactly when there is too little, and then changes nothing |
| StateTransition.StateTransition.BuyGas | internal/state_transition.go:228-267 | Refuses exactly as specified, changing nothing; else takes the price from the sender and the gas from the pool |
| StateTransition.StateTransition.PreCheck | internal/state_transition.go:282-317 | Nonce, code, fee and funds checks in order; which message passes is `Acceptance.AcceptedExactly` |
| StateTransition.StateTransition.RefundGas | internal/state_transition.go:480-495 | The capped refund, paid back with the unused gas; the pool never panics |
| StateTransition.StateTransition.TransitionDb | internal/state_transition.go:332-478 | World, pool and result are those of the specified transition; a refused message changes nothing, or leaves the gas bought where only the intrinsic gas was missing; the pool never panics |
| StateTransition.ApplyTransaction | internal/state_processor.go:137-190 | One transaction adds its gas and its receipt; pool plus gas used is unchanged |
| StateTransition.ProcessBlock | internal/state_processor.go:63-131 | Succeeds exactly when every transaction does and the header names the gas used |
| Unlock.StepKeepsInv | accounts/keystore/keystore.go:322-405 | Every step keeps the invariant; no step closes a channel twice |
| Unlock.RunKeepsInv | accounts/keystore/keystore.go:322-405 | In every reachable state unlocked keys are not zeroed and their channels are not closed |
| Unlock.InitialInv | accounts/keystore/keystore.go:99-106 | A new keystore satisfies the invariant |
| Unlock.TimedUnlockUnlocks | accounts/keystore/keystore.go:340-367 | Leaves its address unlocked with an intact key and every other as it was; an indefinite unlock is kept and the new key zeroed, else the entry is new, with a channel and a timer exactly if timed, and the replaced channel closed |
| Unlock.LockStarts | accounts/keystore/keystore.go:322-331 | Lock waits for exactly the entry it found, or does nothing |
| Unlock.LockAlone | accounts/keystore/keystore.go:322-405 | Alone, Lock removes the entry, zeroes its key and leaves every other address as it was |
| Unlock.StepExactly | accounts/keystore/keystore.go:322-405 | An entry goes exactly when a timer for it expires it, is new exactly when its address is unlocked anew, and a goroutine ends exactly when it expires or is aborted |
| Unlock.ExpiresOnlyItsOwn | accounts/keystore/keystore.go:387-405 | A firing timer removes the entry it was started for or nothing, and zeroes no other key |
| Unlock.ReplacedTimerIsHarmless | accounts/keystore/keystore.go:340-367 | A timer that has fired before its unlock is replaced changes nothing |
| Unlock.ReplacedTimerEnds | accounts/keystore/keystore.go:340-395 | A timer still waiting when its unlock is replaced can end at once, which it could not before, and changes nothing |
| Unlock.IndefinitePersists | accounts/keystore/keystore.go:333-367 | An indefinite unlock keeps its key through every run without a Lock of its address |
| Unlock.TimedUnlockCanExpire | accounts/keystore/keystore.go:358-405 | A timed unlock always has a goroutine whose next steps lock the account |
| Unlock.LockLocks | accounts/keystore/keystore.go:322-331 | Whatever happens in between, Lock returns with the account locked if no step unlocked it anew |
| Unlock.LockRaces | accounts/keystore/keystore.go:322-367 | With one TimedUnlock in between the account is left unlocked if and only if the entry that Lock found was timed |
| Url.LessIs | accounts/url.go:98-103 | URLs are ordered by scheme and within a scheme by path, each by the first place where the strings differ |
| Url.Total | accounts/url.go:98-103 | Any two URLs are ordered or equal |
| Url.Transitive | accounts/url.go:98-103 | The order of URLs is transitive, across schemes too |
| Url.Search | accounts/keystore/account_cache.go:108-108 | Binary search ends where the condition starts to hold, the only such place if it goes on holding |
| AccountCache.RemoveAccount | accounts/keystore/account_cache.go:157-164 | The list without its first occurrence of the account |
| AccountCache.AccountCache.Add | accounts/keystore/account_cache.go:104-117 | List sorted, index exact, one occurrence more unless the account is the first with its URL, which it is afterwards |
| AccountCache.AccountCache.Delete | accounts/keystore/account_cache.go:120-130 | List sorted, index exact without empty buckets, one occurrence less |
| AccountCache.AccountCache.DeleteByFile | accounts/keystore/account_cache.go:133-147 | One account with the path goes or nothing changes; on one URL scheme one goes if there is one |
| AccountCache.AccountCache.Find | accounts/keystore/account_cache.go:169-200 | The account with the file, else the only account with the address, else why not, with the matches sorted |
| AccountCache.AddedTwice | accounts/keystore/account_cache.go:104-117 | Three additions after which an account is in the cache twice |
| Wallets.KeyStore.RefreshWallets | accounts/keystore/keystore.go:138-181 | New list and events are those of the merge of both lists |
| Wallets.RefreshedAre | accounts/keystore/keystore.go:138-175 | The new list is sorted and has the current accounts except those changed under a retained URL |
| Wallets.RefreshExact | accounts/keystore/keystore.go:138-175 | The new list is the list of accounts if and only if no address changed under a retained URL |
| Wallets.EventsAre | accounts/keystore/keystore.go:138-181 | Each wallet that is no current account is dropped once, each account with a new URL arrives once, and there is no other event |
| Wallets.EventsReplayed | accounts/manager.go:133-142 | Replaying the events on a merged list exchanges old wallets for new and keeps the wallets of other backends |
| Wallets.ManagerFollows | accounts/manager.go:133-142 | With one backend the manager's list becomes the keystore's |
| Wallets.Manager.HandleEvent | accounts/manager.go:133-142 | One event applied by merge or drop; the list stays sorted |
| Wallets.Manager.HandleEvents | accounts/manager.go:119-142 | A sequence of events applied in order |
| Wallets.MergeAdds | accounts/manager.go:248-258 | Merging a new URL adds that wallet and keeps the strict order |
| Wallets.MergeAlways | accounts/manager.go:248-258 | `merge` adds the wallet in any case, in front of any with its URL |
| Wallets.DropTakes | accounts/manager.go:262-272 | Dropping a present wallet takes away that wallet |
| Wallets.DropAlways | accounts/manager.go:262-272 | `drop` takes away the first wallet at or after the URL, whichever it is |
| Wallets.AbsentDrop | accounts/manager.go:262-272 | Dropping an absent wallet changes nothing if and only if it sorts after all |
| Wallets.AbsentDropTakesNext | accounts/manager.go:262-272 | A list that loses the next wallet instead |
| Wallets.ChangedAddressLost | accounts/keystore/keystore.go:150-170 | An account changed under its URL disappears |
| HashFn.WalkIndexes | internal/evm.go:96-110 | The parent-by-parent walk finds the hash at the wrapped distance down the ancestor chain, or none |
| HashFn.HashFn.Get | internal/evm.go:82-113 | Whatever was asked before, the answer is that of a fresh walk; the cache stays a prefix of the ancestor chain |
| HashFn.HashFn.Extend | internal/evm.go:96-111 | The walk from the last cached ancestor ends and finds the same hash |
| Compat.CheckRewinds | params/config.go:624-762 | `checkCompatible` is silent if and only if every fork block is scheduled alike or still ahead in both configurations, with the rules for the DAO flag, the chain id and Petersburg; its rewind target is lower or zero |
| Compat.FirstDisagreement | params/config.go:624-762 | The error names the first condition that fails, with both blocks, and rewinds to the last height before them |
| Compat.CheckCompatible | params/config.go:555-569 | Ends; silent if and only if compatible at the height; else an error that the check gives at some height down to its target, which is zero or a lower compatible height, and under a gapless schedule the highest one |
| Compat.NoGap | params/config.go:624-762 | Under a gapless schedule every height between rewind target and head is incompatible |
| Compat.RewindsTooFarIff | params/config.go:650-656 | Some new configuration is rewound past a compatible height if and only if the schedule is not gapless |

## Left out

- The EVM interpreter, the state database, consensus engines, rawdb and MDBX, and all cryptography: the tables are maps, the EVM and hashes are as assumed above.
- Go reflection in `accounts/abi`: tuple fields go by position, and the field names that `assembleArgs` makes up are dropped.
- `HashTy` and `FixedPointTy`, which `NewType` never yields.
- `insertSideChain`, `recoverAncestors`, `writeKnownBlock`, and the receipts and state change sets of a block write. Their re-read blocks enter as `obj` of a write.
- Parlia, `gasBailout` and `refunds == false`, which break conservation on purpose; messages without a fee cap.
- The DAO balance move and the engine's `Finalize` in `Process`.
- Directory scanning, watchers, throttling and the event feed of the keystore; real time in timers.
- The stored files' decryption: a wrong passphrase never reaches the unlocked map.
- AccountCache.AccountCache.Find: takes the completion of a bare file name as a parameter.
- AccountCache.AccountCache.DeleteByFile: does not say which accounts the search misses where there are several URL schemes; the keystore has one.
- Wallets.Manager.HandleEvent: one wallet an event, as in `update`; the lists that `NewManager` merges at start are not modelled.
- Compat.CheckCompatible: fork numbers are natural numbers below 2^64; a negative `big.Int` is not modelled.
