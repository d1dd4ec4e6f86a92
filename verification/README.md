# CyberWay core verification

A Dafny model of the hard parts of the CyberWay node and its system contracts, with the properties they are meant to
have proved for every input, every run and every reachable state. Eight components are modelled:

* **DPoS header state** (`Shuffle`, `HeaderState`, `HeaderRuns`, `HeaderChecks`, `ScheduleHistory`, `Confirmations`,
  `Irreversibility`, `RoundFairness`, `HeaderObject`, and concrete runs in `HeaderViews`, `QuorumExample`,
  `IrreversibleExample`). A run is a genesis state followed by headers accepted by `next`. The value-level step is
  proved safe over whole runs; the class `BlockHeaderState` follows the code's in-place updates and is proved to
  refine it.
* **Fork database** (`ForkTree`, `ForkPruning`, `ForkBft`, `ForkRuns`, `ForkDatabase`, `ForkBranches`, `ForkExample`).
  The index is a map from block id to block, with a log of the blocks announced as irreversible. The methods of the
  class are proved to be the actions of a state machine on values, whose runs the theorems are about.
* **ABI serializer** (`AbiTypes`, `AbiCodec`, `AbiFormat`, `AbiRoundTrip`, `AbiNormal`, `AbiExample`). Encoder and
  decoder over named types, with explicit recursion scopes and the extension rule. A built-in type is any pair of
  packing and unpacking functions whose bytes delimit themselves.
* **Contract heap** (`HeapBlocks`, `HeapMemory`). An array of 32-bit words whose header words tile the heap.
* **Token, stake and RAM ledgers** (`TableSums`, `LedgerState`, `LedgerInvariants`, `LedgerRuns`, `LedgerRefunds`,
  `LedgerEffects`, `LedgerExamples`, `LedgerContract`). One state machine over all tables; an action that fails a
  check changes nothing, and inline transfers belong to the action that sends them. The results of the power function
  in the market are arbitrary functions.
* **Block log** (`BlockLogFormat`, `BlockLog`, `BlockLogExample`). Both files as bytes; packing of blocks is any
  faithful codec.
* **Integer to double conversion** (`Doubles`, `FloatConversion`) and the **permission tree** (`PermissionTables`,
  `PermissionTree`, `PermissionEffects`, `PermissionManager`).

`Wrappers`, `Basics` and `Arithmetic` hold shared datatypes and facts. `dafny verify dfyconfig.toml` checks everything.

Some promises turn out to depend on a condition. The model gives an input where each fails and states the condition
exactly, except that for the bases of structs it is a sufficient one:

* A header that claims more blocks than exist wraps the unsigned subtraction of the double-confirm check
  (`ClaimsOverlapIffWrapped`, `WrappedClaimIsAccepted`).
* The confirmations with which a block is proposed are a quorum of distinct producers exactly when the quorum is at
  most 256 and no claim is repeated in that way; `next` itself limits neither (`QuorumIff`,
  `OneClaimIsTakenForAQuorum`, `RepeatedClaimsAreTakenForAQuorum`). An 8-bit counter is counted down from zero exactly
  when the low byte of the quorum is zero (`UnderflowIff`, `CounterUnderflows`).
* After a promotion the irreversible number can go back (`IrreversibleStepIff`, `IrreversibleMovesBack`).
* Pruning loses the head when a sibling of one of its ancestors comes first in the order of age (`HeadSurvivesIff`,
  `HeadIsPrunedAway`).
* A base named like an optional, or like a built-in type that can be given as an object, is written as that and read
  as a struct (`RoundTrip`, `OptionalBaseIsLost`, `BuiltinBaseIsLost`).
* An object that lacks optional fields comes back with them as null, unless the optional's name is an alias that leads
  to no optional: then the flag of the missing field is read as a value of that type (`NormalComesBack`,
  `MissingIsNullIff`, `AliasedOptionalIsLost`).
* Decoding enters more scopes than encoding, so a value can be encoded and be too deep to decode (`RoundTrip`,
  `DeepValueIsLost`).
* A request for nearly 2^32 bytes wraps the sums of the heap and is granted (`ServesIff`, `LargestRequest`).
* A delegation signed by cyber.stake is not paid for, and cyber.ram may spend what it owes (`BackedIff`,
  `UnpaidDelegation`, `RamBackedIff`, `RamUnderpaid`).
* A refund requested within three days of the end of the 32-bit clock is due at once (`RefundWaitsIff`,
  `RefundedAtOnce`).
* An index file of four to seven bytes stops the log from opening, and one cut inside an entry can be mistaken for
  complete (`CutIndexIff`, `BrokenIndexIsTrusted`).
* The largest 128-bit integer survives the way to a double and back although it has more than 53 significant digits
  (`ThereAndBackExact`).
* linkauth accepts a permission that only another account has (`LinkDanglesIff`, `LinkToAStrangersPermission`).

## Model

| member | source | states |
|---|---|---|
| Shuffle.ShufflePermutes | libraries/chain/include/eosio/chain/random.hpp:9-28 | the shuffled schedule is a permutation of the old one and leaves everything before the starting position where it was, for every seed |
| Shuffle.ShuffleInPlace | libraries/chain/include/eosio/chain/random.hpp:9-28 | the in-place exchange loop leaves the array as the shuffle function says |
| Shuffle.ShuffleIsFair | libraries/chain/include/eosio/chain/random.hpp:9-28 | of distinct items every order of those from the starting position on comes out of exactly one choice of exchanges: no order is lost and none is favoured |
| Shuffle.FirstDrawOfOne | libraries/chain/include/eosio/chain/random.hpp:9-28 | the first 64-bit draw of seed 1 through the three shifts and the multiplication is 4396774442519208864 |
| HeaderState.LastIrreversibleUnique | libraries/chain/block_header_state.cpp:18-29 | the number reported as irreversible is the only one that floor(2n/3)+1 entries reach and its successor is not |
| HeaderObject.Sort | libraries/chain/block_header_state.cpp:27 | the sorted list is ascending and keeps, for every threshold, how many entries reach it |
| HeaderObject.ThirdOfSorted | libraries/chain/block_header_state.cpp:23-28 | the entry one third into an ascending list is reached by floor(2n/3)+1 entries, and no greater number is |
| HeaderObject.CalcLastIrreversible | libraries/chain/block_header_state.cpp:18-29 | sorting and picking one third in computes the greatest number backed by floor(2n/3)+1 entries, and zero for no entries |
| HeaderObject.CarryOver | libraries/chain/block_header_state.cpp:100-121 | the rebuilt map has exactly the new producers, old entries kept, newcomers at the irreversible number |
| HeaderObject.BlockHeaderState.GenerateNext | libraries/chain/block_header_state.cpp:36-89 | the template built field by field is the value-level successor, or the same error |
| HeaderObject.BlockHeaderState.CountConfirmations | libraries/chain/block_header_state.cpp:201-234 | the count-down loop over the 8-bit counters, with its early return, computes the recursive specification whose shape ConfirmShape gives |
| HeaderObject.BlockHeaderState.UpdateActiveSchedule | libraries/chain/block_header_state.cpp:91-138 | promotion, in-round reshuffle and the two assertions leave exactly the specified state |
| HeaderObject.BlockHeaderState.SetNewProducers | libraries/chain/block_header_state.cpp:140-148 | a new schedule is taken only with the next version and when none is pending |
| HeaderObject.BlockHeaderState.Finish | libraries/chain/block_header_state.cpp:179-191 | counting, schedule update and proposal leave the specified state, or the same error |
| HeaderObject.BlockHeaderState.Next | libraries/chain/block_header_state.cpp:159-199 | the whole step refines the value-level step that the run theorems are about, errors included; NextAcceptsIff says which headers that step accepts |
| HeaderChecks.SlotOwner | libraries/chain/block_header_state.cpp:13-16 | the slots after a shuffle belong to the scheduled producers in their order, round after round |
| HeaderChecks.NextAcceptsIff | libraries/chain/block_header_state.cpp:159-199 | for every header, next accepts it if and only if it is later, carries no extensions, names the block before as previous, is made by the producer of its slot under the version in force, claims no block again, proposes a schedule only where one may be proposed, and, when the signature is checked, is signed with that producer's key |
| HeaderChecks.NextErrors | libraries/chain/block_header_state.cpp:159-199 | a rejected header gets the error of the first of these checks that fails, in the order of the code |
| HeaderChecks.RunLinked | libraries/chain/block_header_state.cpp:159-199 | in every run each header passes all checks of the state before it, its previous is the id of the block before, and slots increase: the headers form one chain |
| ScheduleHistory.PromotionSets | libraries/chain/block_header_state.cpp:91-122 | a promotion puts exactly the pending schedule in force, shuffled by the slot, leaves none pending, starts the round at the slot and gives exactly the new producers entries, carried over or at the irreversible number |
| ScheduleHistory.ReshuffleSets | libraries/chain/block_header_state.cpp:126-136 | nothing is reshuffled before n slots are over; then the rest of the round the block lies in is dealt out again and the owners of its slots up to the block's own stay |
| ScheduleHistory.RunFromHeaders | libraries/chain/block_header_state.cpp:91-148 | in every run the schedule in force is the first one or was proposed by an earlier header, and so was the one that is pending, with the next version |
| ScheduleHistory.TakeOverIff | libraries/chain/block_header_state.cpp:91-122 | on every step of every run the pending schedule takes over if and only if the block whose header proposed it is irreversible by then, and versions go up one by one |
| ScheduleHistory.ProposalWaits | libraries/chain/block_header_state.cpp:140-148 | a schedule that a header proposes is pending from its block on, none was pending before, and its block is remembered |
| HeaderRuns.SignatureCheckOnlyRejects | libraries/chain/block_header_state.cpp:193-196 | checking the signature never changes the resulting state, it only rejects |
| HeaderRuns.RunSound | libraries/chain/block_header_state.cpp:36-89 | every state of every run from genesis is usable, has consecutive block numbers, and keeps the schedule and tracking maps consistent |
| HeaderRuns.ScheduleAssertsNeverFire | libraries/chain/block_header_state.cpp:126-131 | on no reachable state does any header fail the assertions on an empty schedule or on the shuffle slot |
| HeaderRuns.ReshufflePermutes | libraries/chain/block_header_state.cpp:126-136 | a reshuffle in mid-round keeps the multiset of scheduled producers |
| Confirmations.RunRemembers | libraries/chain/block_header_state.cpp:93-122 | in every run each scheduled producer's remembered block number is at least that of its latest block, even after it left and came back |
| Confirmations.ClaimsOverlapIffWrapped | libraries/chain/block_header_state.cpp:169-172 | two blocks of one producer confirm a block in common if and only if the later header claims more blocks than exist, so that the unsigned subtraction wraps |
| Confirmations.NoDoubleConfirm | libraries/chain/block_header_state.cpp:169-172 | with claims that fit the chain, no producer confirms a block twice in any run, whatever schedules come and go |
| Confirmations.WrappedClaimIsAccepted | libraries/chain/block_header_state.cpp:169-172 | a concrete run in which the wrapped subtraction lets a double confirmation through |
| Confirmations.ConfirmShape | libraries/chain/block_header_state.cpp:201-234 | for all counter bytes, counting down stops exactly at the highest counter with one left and drops everything up to it; otherwise exactly the claimed counters have one less left, a counter of zero having 256 |
| Confirmations.ClaimersDistinctIff | libraries/chain/block_header_state.cpp:169-172 | in every run a block has as many distinct claimers as claims if and only if no producer that claimed it later claims more blocks than exist |
| Confirmations.ProposedIffQuorum | libraries/chain/block_header_state.cpp:73-86 | in every reachable state of every run the proposed block, at most block_num - size, has the claims its 8-bit counter asks for, no later tracked block has them or a quorum, and where the quorum is at most 256 and no claim is repeated they are floor(2n/3)+1 distinct producers |
| Confirmations.QuorumIff | libraries/chain/block_header_state.cpp:73-86 | whenever a block becomes proposed it has exactly (quorum-1) mod 256 + 1 claims, and these are a quorum of distinct producers if and only if the quorum is at most 256 and no claim is repeated |
| Confirmations.WindowCounts | libraries/chain/block_header_state.cpp:77-86 | in every reachable state of every run counter i belongs to block_num-(size-1-i), equals the claims that block still lacks, and is positive |
| Confirmations.UnderflowIff | libraries/chain/block_header_state.cpp:77-86 | a counter is counted down from zero, so that the 8-bit decrement underflows, if and only if it is that of the new block and the low byte of its quorum is zero |
| Confirmations.ProposedGrows | libraries/chain/block_header_state.cpp:201-234 | the proposed number never decreases in any run, also when the full window slides |
| Irreversibility.LastIrreversibleIsAnEntry | libraries/chain/block_header_state.cpp:18-29 | the irreversible number is one of the implied entries |
| Irreversibility.RaisingOneEntry | libraries/chain/block_header_state.cpp:67-68 | raising one implied entry never lowers the irreversible number |
| Irreversibility.IrreversibleHasQuorum | libraries/chain/block_header_state.cpp:64-68 | in every reachable state of every run irreversible <= proposed <= block_num, and the irreversible block has the claims it needed: a quorum of distinct confirmers where the quorum is at most 256 and no claim is repeated |
| Irreversibility.FittingRunHasQuorums | libraries/chain/block_header_state.cpp:64-86 | with headers that claim no more blocks than exist and propose no schedule beyond the counters, every proposed or irreversible block has a quorum of distinct confirmers |
| QuorumExample.OneClaimIsTakenForAQuorum | libraries/chain/block_header_state.cpp:140-148 | four blocks after genesis, 384 producers having been proposed, one of them makes a block proposed irreversible although 257 are a quorum |
| QuorumExample.CounterUnderflows | libraries/chain/block_header_state.cpp:77-86 | with 383 producers the counter of a new block starts at zero |
| QuorumExample.RepeatedClaimsAreTakenForAQuorum | libraries/chain/block_header_state.cpp:169-172 | one of four producers confirms a block three times, the last two times claiming more blocks than exist, and so makes it proposed although three are a quorum |
| Irreversibility.IrreversibleGrows | libraries/chain/block_header_state.cpp:64-68 | the irreversible number never decreases on a step out of a state whose block did not promote a schedule |
| Irreversibility.IrreversibleStepIff | libraries/chain/block_header_state.cpp:64-68 | on every step of every run the irreversible number does not decrease if and only if it is still backed by the implied numbers of the producers then scheduled, with the new block's producer at the proposed number |
| IrreversibleExample.IrreversibleMovesBack | libraries/chain/block_header_state.cpp:110-121 | a run of ten blocks from genesis in which a promotion carries over a low implied number and the irreversible number goes from 5 back to 3 |
| Irreversibility.ImpliedAtMostProposed | libraries/chain/block_header_state.cpp:110-121 | every implied entry of every reachable state is at most the proposed number |
| RoundFairness.StepKeepsRound | libraries/chain/block_header_state.cpp:126-136 | without a promotion the shuffle slot moves by multiples of n and stays within n slots at or below the head slot |
| RoundFairness.RoundIsFair | libraries/chain/block_header_state.cpp:13-16 | in a stretch without promotion every aligned window of n slots is owned by a permutation of the n scheduled producers, even when missed blocks force the reshuffle inside the window |
| ForkDatabase.FindBest | libraries/chain/fork_database.cpp:33-40 | the block chosen is maximal in irreversible number, BFT number and block number |
| ForkPruning.MaximalIff | libraries/chain/fork_database.cpp:33-40 | maximal means the greatest irreversible number, among those the greatest BFT number, and among those the greatest block number |
| ForkPruning.OldestIff | libraries/chain/fork_database.cpp:26-32 | oldest means the least block number, and marked as current if any block of that number is |
| ForkDatabase.ForkDatabase.RemoveBlocks | libraries/chain/fork_database.cpp:217-231 | the work queue terminates and removes exactly the block and all its descendants |
| ForkDatabase.ForkDatabase.Remove | libraries/chain/fork_database.cpp:217-234 | removal also leaves a maximal block as head and keeps the index linked |
| ForkDatabase.ForkDatabase.Prune | libraries/chain/fork_database.cpp:258-282 | for every block, all older ones are announced first, one oldest after the other; then the block is announced if it is still there and exactly what descends from it is left, and otherwise every block of its number goes with all that is built on it; the announced blocks stay one linked chain; a maximal head that is not pruned stays maximal |
| ForkDatabase.ForkDatabase.PruneOlder | libraries/chain/fork_database.cpp:263-267 | oldest blocks are announced one after the other until none is below the number; left is exactly what is built on the last one |
| ForkDatabase.ForkDatabase.PruneIrreversible | libraries/chain/fork_database.cpp:141-150 | at most ten oldest blocks below the irreversible number are announced; left is exactly what is built on the last one; a favoured head survives, and a head that survives is maximal |
| ForkDatabase.ForkDatabase.Add | libraries/chain/fork_database.cpp:126-153 | exactly the documented errors, with nothing changed; otherwise a maximal block of the old index and the new block becomes head, pruning follows as above, and what is left is everything if nothing was announced, else exactly what is built on the last announced block; the chosen head stays, and stays maximal, whenever it is favoured |
| ForkDatabase.ForkDatabase.AddSigned | libraries/chain/fork_database.cpp:155-169 | the same for a signed block, and children keep BFT numbers at least their parents' |
| ForkDatabase.ForkDatabase.AddConfirmation | libraries/chain/fork_database.cpp:304-320 | exactly the documented errors; otherwise the confirmation is recorded and, with floor(2n/3)+1 of them, the number spreads to what is built on the block as far as blocks are too low; on an ordered index that raises every descendant, and the index stays ordered |
| ForkDatabase.ForkDatabase.MarkInCurrentChain | libraries/chain/fork_database.cpp:245-256 | only the one flag changes, or the block is missing |
| ForkPruning.PrunesKeeps | libraries/chain/fork_database.cpp:141-150 | however ties between blocks of the same age are broken, pruning leaves exactly what is built on the last block announced |
| ForkPruning.HeadSurvivesIff | libraries/chain/fork_database.cpp:141-150 | the head survives the prunings for every way of breaking ties if and only if each of its ancestors that may be pruned has no sibling, or is marked as current and its siblings are not |
| ForkExample.AllIsPruned | libraries/chain/fork_database.cpp:141-150 | five blocks for which, however ties are broken, the prunings after the last addition leave nothing |
| ForkExample.HeadIsPrunedAway | libraries/chain/fork_database.cpp:126-169 | additions and one mark from a fresh database that reach those blocks: the head is pruned and the index is empty, whose first entry the code then reads |
| ForkRuns.AnnouncedConsecutively | libraries/chain/fork_database.cpp:258-282 | announced block numbers are consecutive, so none is announced twice |
| ForkDatabase.LeftDescendsFromAnnounced | libraries/chain/fork_database.cpp:258-282 | every block left in the index descends from the last one announced |
| ForkRuns.ConfirmedKeeps | libraries/chain/fork_database.cpp:304-320 | confirmers stay distinct and scheduled; a BFT number is raised only below a block with floor(2n/3)+1 distinct confirmers, and a block that has them is raised with all that is built on it |
| ForkRuns.RunSound | libraries/chain/fork_database.cpp:126-360 | in every state of every run of additions, confirmations, marks and removals the announced blocks are one chain that the index hangs from, BFT numbers do not fall from parent to child, confirmers are distinct and scheduled, every BFT number but the first has a quorum behind it, and every block with a quorum has a BFT number at least its own |
| ForkRuns.BftNumbersHaveQuorums | libraries/chain/fork_database.cpp:304-360 | over every run, a BFT number other than the first is the number of a block that was announced or is an ancestor, and that floor(2n/3)+1 distinct producers of its schedule confirmed |
| ForkRuns.QuorumsRaise | libraries/chain/fork_database.cpp:304-360 | the converse: over every run, a block that floor(2n/3)+1 distinct producers have confirmed has raised its own BFT number and that of everything built on it at least to its number |
| ForkRuns.RunAnnouncesAChain | libraries/chain/fork_database.cpp:258-282 | over every run, the announced blocks form one chain with consecutive numbers and every block left is built on the last of them |
| ForkRuns.AncestorKept | libraries/chain/fork_database.cpp:258-282 | an ancestor of a block that survives the prunings survives too or has been announced |
| ForkBft.CutOffIsSound | libraries/chain/fork_database.cpp:322-360 | where no child is below its parent, stopping at blocks already high enough loses nothing: the result equals raising every descendant |
| ForkBft.CutOffIsSoundIff | libraries/chain/fork_database.cpp:322-360 | stopping at blocks already high enough equals raising every descendant if and only if no block that is too low lies behind one of them |
| ForkBft.RaisedOrdered | libraries/chain/fork_database.cpp:322-360 | raising keeps every child's BFT number at least its parent's |
| ForkBft.SetBftIrreversible | libraries/chain/fork_database.cpp:322-360 | the layered walk raises exactly what it reaches through blocks that are too low; on an ordered index that is every descendant, to max(old, block number) |
| ForkBranches.FetchBranchFrom | libraries/chain/fork_database.cpp:177-214 | two linked branches from the given heads to blocks with a common parent; they share a block only as their last one, exactly when one head descends from the other |
| AbiTypes.CheckChain | libraries/chain/abi_serializer.cpp:268-281 | remembering the names seen rejects a chain exactly when it never ends |
| AbiTypes.ValidateTypedefs | libraries/chain/abi_serializer.cpp:268-281 | accepts exactly the aliases without circles |
| AbiTypes.CheckBases | libraries/chain/abi_serializer.cpp:282-295 | accepts a struct only if its base exists and the chain of bases ends |
| AbiTypes.ValidateBases | libraries/chain/abi_serializer.cpp:282-295 | accepts exactly the structs whose bases exist and form no circle |
| AbiTypes.ResolveType | libraries/chain/abi_serializer.cpp:317-327 | the bounded loop computes the resolution function |
| AbiTypes.ResolveEnds | libraries/chain/abi_serializer.cpp:317-327 | for accepted aliases the loop ends within its bound on a name that is no alias, the end of the chain |
| AbiTypes.ResolveIdempotent | libraries/chain/abi_serializer.cpp:317-327 | resolving twice is resolving once |
| AbiRoundTrip.NumRoundTrip | contracts/eosiolib/varint.hpp:203-240 | every 32-bit number is read back from its packed form, whatever follows |
| AbiFormat.PackNumIs | contracts/eosiolib/varint.hpp:203-240 | a number is written in the fewest groups of seven bits, lowest first, all but the last marked |
| AbiFormat.UnpackNumIs | contracts/eosiolib/varint.hpp:203-240 | reading takes the bytes up to the first unmarked one, modulo 2^32, and fails exactly when there is none |
| AbiRoundTrip.FixedWidthFaithful | libraries/chain/abi_serializer.cpp:65-75 | a type of fixed width delimits itself and reads back |
| AbiRoundTrip.VarUintFaithful | libraries/chain/abi_serializer.cpp:77 | varuint32 delimits itself and reads back |
| AbiRoundTrip.BlobFaithful | libraries/chain/abi_serializer.cpp:90-91 | bytes and strings delimit themselves and read back |
| AbiRoundTrip.BuiltinRoundTrip | libraries/chain/abi_serializer.cpp:32-51 | for any built-in type that delimits itself, packing and unpacking a value, an array or an optional of it gives the value and the rest of the stream back |
| AbiFormat.BuiltinWritten | libraries/chain/abi_serializer.cpp:32-51 | an array of a built-in type is accepted exactly when each item is, and is its count and the items one after the other; an optional is a zero, or a one and the value |
| AbiFormat.BuiltinArrayRead | libraries/chain/abi_serializer.cpp:32-51 | an array of a built-in type is read as given values if and only if its count is theirs and each is unpacked where the one before ended |
| AbiFormat.BuiltinRead | libraries/chain/abi_serializer.cpp:32-51 | an optional of a built-in type is read as nothing after a zero and as a value after any other byte |
| AbiFormat.ArrayWritten | libraries/chain/abi_serializer.cpp:477-490 | an array is accepted exactly when each item is accepted as the item type, without extensions, and is its count and the items one after the other |
| AbiFormat.OptionalWritten | libraries/chain/abi_serializer.cpp:491-496 | an optional is a zero byte for null, or a one and its value, and is accepted exactly when its value is |
| AbiFormat.VariantWritten | libraries/chain/abi_serializer.cpp:497-511 | a variant is accepted exactly as a pair of a listed type name and a value of that type, and is the position of the first type of that name and then the value |
| AbiFormat.FieldsWritten | libraries/chain/abi_serializer.cpp:523-552 | the fields of an object are accepted if and only if they can be cut so that each one before the cut can be written and all from the cut on are missing extensions that may be missing; the bytes are the parts before the cut, a missing optional being a zero byte |
| AbiFormat.StructWritten | libraries/chain/abi_serializer.cpp:512-552 | a struct is accepted exactly when its base, given the same object and no extensions, and its own fields are, and is the bytes of both in that order |
| AbiFormat.ArrayRead | libraries/chain/abi_serializer.cpp:388-410 | an array is read as given values if and only if its count is theirs and each is read where the one before ended, none of them null |
| AbiFormat.OptionalRead | libraries/chain/abi_serializer.cpp:411-416 | a zero byte is read as null, and after any other byte the value is read |
| AbiFormat.VariantRead | libraries/chain/abi_serializer.cpp:417-430 | a variant is read as the type at the position written, paired with its name, and a position beyond the last is refused |
| AbiFormat.StructRead | libraries/chain/abi_serializer.cpp:432-437 | a struct is read into one object, which takes two scopes |
| AbiFormat.BaseRead | libraries/chain/abi_serializer.cpp:329-360 | the fields of the base are read first, into the same object, and then the struct's own |
| AbiFormat.FieldsRead | libraries/chain/abi_serializer.cpp:340-360 | the fields of a struct are each read where the one before ended and entered into the object under their names; only extensions are left out, at the end of the stream |
| AbiFormat.StepsAreRead | libraries/chain/abi_serializer.cpp:340-360 | conversely, whatever can be read field by field in that way is what decoding gives |
| AbiFormat.SetIs | libraries/chain/abi_serializer.cpp:358 | entering a field changes the value under that name and no other, in place or at the end |
| AbiRoundTrip.RoundTrip | libraries/chain/abi_serializer.cpp:362-438 | decoding an encoding of a canonical value of any type gives the value back and consumes exactly its bytes if and only if the scopes it needs are there, and is refused as too deep otherwise, for every ABI that validate accepts in which no base is named like an optional or like a built-in type given as an object; trailing extensions may be missing only where nothing follows |
| AbiRoundTrip.EncodeBase | libraries/chain/abi_serializer.cpp:519-522 | an object accepted for a base is written as that struct, unless the base is named like an optional or like a built-in type that takes objects |
| AbiExample.OptionalBaseIsLost | libraries/chain/abi_serializer.cpp:337-339 | an ABI that validate accepts, with a base named like an optional, whose objects do not decode back: the optional's flag is read as the field and the field is left over |
| AbiExample.BuiltinBaseIsLost | libraries/chain/abi_serializer.cpp:337-339 | an ABI that validate accepts, with a base named like a built-in type that takes objects, whose objects do not decode |
| AbiExample.NestedDecodesIff | libraries/chain/abi_serializer.cpp:638-647 | what is nested k times in optional fields is encoded within 2k+2 scopes and decoded if and only if there are 3k+3 |
| AbiExample.DeepValueIsLost | libraries/chain/abi_serializer.cpp:638-647 | a value that is encoded within 22 scopes and is too deep to decode within the limit of 32 |
| AbiRoundTrip.FieldsRoundTrip | libraries/chain/abi_serializer.cpp:329-360 | the same for the fields of a struct from any position on, with what was decoded before |
| AbiRoundTrip.OmittedRoundTrip | libraries/chain/abi_serializer.cpp:466-577 | omitted trailing extensions encode to nothing and decode from the end of the stream, and are refused where extensions are not allowed |
| AbiRoundTrip.NothingOmittedInside | libraries/chain/abi_serializer.cpp:890-900 | where something may follow, an accepted struct has all its fields |
| AbiNormal.NormalMatches | libraries/chain/abi_serializer.cpp:329-360 | the normal form of an object, which has Null for each missing optional field and drops entries that are no field, says of every field what the object says |
| AbiNormal.EncodesLikeNormal | libraries/chain/abi_serializer.cpp:535-542 | whatever is accepted, missing optional fields and surplus entries included, is encoded to exactly the bytes of its normal form, for every accepted ABI with distinct field names in which names of optionals lead to optionals |
| AbiNormal.NormalComesBack | libraries/chain/abi_serializer.cpp:329-360 | so decoding the encoding of any accepted value gives its normal form back and consumes exactly its bytes, if and only if the scopes are there: a missing optional field comes back as Null |
| AbiNormal.MissingIsNullIff | libraries/chain/abi_serializer.cpp:411-416 | the zero byte written for a missing optional field is read as Null if and only if the name of its type leads to an optional |
| AbiExample.AliasedOptionalIsLost | libraries/chain/abi_serializer.cpp:535-542 | an ABI that validate accepts in which a name ending in a question mark is an alias: the flag written for the missing field is read back as a byte of that field |
| AbiRoundTrip.EmptyFieldIsLost | libraries/chain/abi_serializer.cpp:329-360 | a field of no bytes at the end of the stream does not come back: why canonical values have bytes in or after each field |
| HeapBlocks.TilesAreRow | contracts/eosiolib/eosiolib.cpp:395-435 | the header words of a tiled heap describe blocks that follow each other without gap or overlap |
| HeapBlocks.PayloadsDisjoint | contracts/eosiolib/eosiolib.cpp:276-288 | payloads of different blocks are disjoint and inside the heap |
| HeapBlocks.FirstFitRow | contracts/eosiolib/eosiolib.cpp:290-313 | first fit keeps the heap tiled in whole memory blocks |
| HeapBlocks.FirstFitKeepsUsed | contracts/eosiolib/eosiolib.cpp:290-313 | the blocks in use afterwards are those before and the one returned, of the requested size |
| HeapBlocks.FirstFitComplete | contracts/eosiolib/eosiolib.cpp:290-313 | first fit returns null if and only if every run of adjacent free blocks is too small |
| HeapBlocks.FirstFitIsFirst | contracts/eosiolib/eosiolib.cpp:290-313 | the block returned was free and is the first from which enough adjacent free memory starts |
| HeapBlocks.FirstFitJoins | contracts/eosiolib/eosiolib.cpp:466-498 | before the block returned, or everywhere when null is returned, no two free blocks are left next to each other |
| HeapBlocks.AdjustedIff | contracts/eosiolib/eosiolib.cpp:234-241 | rounding up gives the next whole size, except that the last three 32-bit sizes wrap around to four bytes |
| HeapMemory.ServesIff | contracts/eosiolib/eosiolib.cpp:276-288 | a request of any 32-bit size gets a new last block of at least that size, or null with nothing changed, if and only if neither the rounding nor the sum in the capacity check wraps around; after a wrapped rounding null is still right when nothing fits |
| HeapMemory.LargestRequest | contracts/eosiolib/eosiolib.cpp:276-288 | on an empty heap of 8192 bytes a request for 0xFFFFFFFC bytes is granted, takes up nothing and shares its pointer with the next request |
| HeapMemory.Memory.Allocate | contracts/eosiolib/eosiolib.cpp:118-127 | a request on one heap is rounded up and passed on, with the error, the pointer and the new row for every size and every heap; zero bytes get null |
| HeapMemory.Memory.Malloc | contracts/eosiolib/eosiolib.cpp:276-288 | for every 32-bit size the words, the end of the row and the pointer are those of the wrapping arithmetic; without a wrap one live block is added at the end, or null is returned |
| HeapMemory.Memory.Free | contracts/eosiolib/eosiolib.cpp:363-367 | exactly one block becomes free |
| HeapMemory.Memory.CleanupRemaining | contracts/eosiolib/eosiolib.cpp:369-379 | the rest of the heap becomes one free block |
| HeapMemory.Memory.ExpandMemory | contracts/eosiolib/eosiolib.cpp:381-389 | adjacent memory extends the heap and moves no block |
| HeapMemory.Memory.MergeContiguous | contracts/eosiolib/eosiolib.cpp:466-498 | merging forward over free blocks and splitting off the excess rewrites the row exactly as specified |
| HeapMemory.Memory.MallocFromFreed | contracts/eosiolib/eosiolib.cpp:290-313 | the walk over header words equals first fit on the block list, and no word of a live block changes |
| LedgerInvariants.MovedKeeps | contracts/eosio.token/eosio.token.cpp:62-116 | a transfer keeps the sum of balances equal to the supply, and every stored balance positive |
| LedgerInvariants.IssuedKeeps | contracts/eosio.token/eosio.token.cpp:32-60 | issuing, with its inline transfer, raises supply and balances alike and stays within the maximum |
| LedgerInvariants.DelegatedTotals | contracts/eosio.system/delegate_bandwidth.cpp:229-252 | a change of one delegation moves the totals to its receiver, from its owner and overall by exactly the change, whether rows appear or vanish |
| LedgerInvariants.RequestedTotals | contracts/eosio.system/delegate_bandwidth.cpp:280-343 | delegations and pending refunds together grow by exactly what the payer pays |
| LedgerInvariants.ConvertBalances | contracts/eosio.system/exchange_state.cpp:48-81 | every conversion takes in what is given and pays out what it returns; between base and quote it goes through the exchange token once and leaves the supply as it was |
| LedgerRuns.ChangedKeeps | contracts/eosio.system/delegate_bandwidth.cpp:215-385 | a change of stake keeps every table consistent and the surplus of cyber.stake exact |
| LedgerRuns.FeeIsHalfPercent | contracts/eosio.system/delegate_bandwidth.cpp:114-122 | the fee is half a percent rounded up, and less than any price above one |
| LedgerRuns.BoughtKeeps | contracts/eosio.system/delegate_bandwidth.cpp:109-157 | buying RAM keeps all ledgers in agreement, and quote balance minus RAM stake and the surplus of cyber.ram constant, for any pricing; only receiver, payer, cyber.ram and cyber.ramfee change, by bytes, price, price less fee and fee |
| LedgerRuns.SoldKeeps | contracts/eosio.system/delegate_bandwidth.cpp:166-205 | the same for selling RAM |
| LedgerRuns.OpenedKeeps | contracts/eosio.system/eosio.system.cpp:24-37 | opening the market establishes base balance + reserved bytes = RAM size |
| LedgerEffects.OpenedIs | contracts/eosio.system/eosio.system.cpp:24-37 | the market opens once there are tokens, with 10^14 exchange units, the free RAM as base and a thousandth of the supply as quote, and only once |
| LedgerRuns.StepKeeps | contracts/eosio.system/delegate_bandwidth.cpp:215-427 | every action that goes through keeps every invariant, and names the only actions that can lower the two surpluses |
| LedgerRuns.RunSound | contracts/eosio.system/delegate_bandwidth.cpp:92-427 | in every run: balances sum to supply, receivers' totals and voters' stakes are the sums of delegations, reserved bytes are the sum of users' bytes, base balance + reserved = RAM size |
| LedgerRuns.RunQuote | contracts/eosio.system/delegate_bandwidth.cpp:92-205 | once the market is open, quote balance minus RAM stake and the exchange supply are constant for the rest of the run |
| LedgerRuns.RunBacked | contracts/eosio.system/delegate_bandwidth.cpp:215-427 | as long as cyber.stake signs no spending of its own, its balance covers all delegations and all pending refunds |
| LedgerRuns.RunRamBacked | contracts/eosio.system/delegate_bandwidth.cpp:92-205 | as long as cyber.ram signs no spending of its own, its balance covers the RAM stake |
| LedgerRuns.BackedIff | contracts/eosio.system/delegate_bandwidth.cpp:281-360 | an action keeps the backing if and only if it is not a spending signed by cyber.stake beyond its surplus |
| LedgerRuns.UnpaidDelegation | contracts/eosio.system/delegate_bandwidth.cpp:281 | a delegation by cyber.stake itself goes through unpaid and breaks the backing |
| LedgerRefunds.RamBackedIff | contracts/eosio.system/delegate_bandwidth.cpp:92-205 | an action keeps the RAM stake covered if and only if it is not a transfer or a delegation by cyber.ram that costs more than its surplus |
| LedgerRefunds.RamNeverBuys | contracts/eosio.system/delegate_bandwidth.cpp:124-125 | cyber.ram cannot buy RAM, since it would have to pay itself |
| LedgerExamples.RamUnderpaid | contracts/eosio.system/delegate_bandwidth.cpp:141-142 | after one purchase cyber.ram pays away a token it owes, and the RAM stake is no longer covered |
| LedgerRefunds.DueExact | contracts/eosio.system/delegate_bandwidth.cpp:418 | the 32-bit sum makes a refund due 259200 seconds after the request or, if the sum wraps, at once |
| LedgerRefunds.RefundPays | contracts/eosio.system/delegate_bandwidth.cpp:412-427 | in a backed ledger a refund goes through if and only if it is pending and due, and then pays in full: it never overdraws |
| LedgerRefunds.UndelegateExact | contracts/eosio.system/delegate_bandwidth.cpp:399-409 | in a backed ledger an undelegation goes through if and only if the delegation covers it, the chain is activated and vesting allows it: the later checks never fail |
| LedgerRefunds.DelegateExact | contracts/eosio.system/delegate_bandwidth.cpp:387-397 | in a backed ledger a delegation goes through if and only if the payer can pay what the pending refund does not cover |
| LedgerRefunds.DelegationPaid | contracts/eosio.system/delegate_bandwidth.cpp:355-359 | what the pending refund does not cover goes from the signer to cyber.stake, and no other balance changes |
| LedgerRefunds.VestsIff | contracts/eosio.system/delegate_bandwidth.cpp:207-213 | b1 keeps at least what has not vested of its hundred million tokens, linearly over ten years of 52 weeks |
| LedgerEffects.TransferExact | contracts/eosio.token/eosio.token.cpp:62-116 | a transfer goes through if and only if both accounts exist and differ and the balance covers a positive amount in range; it moves the amount and changes nothing else |
| LedgerEffects.IssueExact | contracts/eosio.token/eosio.token.cpp:32-60 | issuing goes through if and only if the amount is positive and the supply stays within the maximum; exactly the receiver and the supply gain it |
| LedgerEffects.NewAccountExact | libraries/chain/eosio_contract.cpp:79-138 | an account is added if and only if there is none of that name, and no table of the ledger changes |
| LedgerEffects.StakeSets | contracts/eosio.system/delegate_bandwidth.cpp:215-385 | one delegation, its receiver's totals and its owner's stake change by exactly the net and the cpu of the action, each half for itself, and no others do |
| LedgerEffects.UndelegationPends | contracts/eosio.system/delegate_bandwidth.cpp:296-341 | an undelegation by anyone but cyber.stake makes the owner's pending net and cpu each grow by exactly what is taken back, timed anew, and changes no other request |
| LedgerEffects.UndelegationIsFree | contracts/eosio.system/delegate_bandwidth.cpp:343-360 | undelegating moves no tokens |
| LedgerEffects.DelegationEatsUp | contracts/eosio.system/delegate_bandwidth.cpp:296-341 | a delegation to oneself lowers each half of one's pending refund by exactly what it covers of that half, drops a refund of which nothing is left, and no other delegation touches a request |
| LedgerEffects.StakeIsNotSettled | contracts/eosio.system/delegate_bandwidth.cpp:281 | stake changes of cyber.stake itself touch neither requests nor tokens |
| LedgerEffects.TakenBackAndForth | contracts/eosio.system/delegate_bandwidth.cpp:387-409 | in a backed ledger taking stake back and staking it for oneself again goes through, costs nothing and restores every delegation, total, vote, balance and pending amount; only a refund that was pending waits anew |
| LedgerEffects.RefundSets | contracts/eosio.system/delegate_bandwidth.cpp:412-427 | a refund empties the owner's request, moves both its halves from cyber.stake to the owner and changes nothing else |
| LedgerEffects.ConvertThrough | contracts/eosio.system/exchange_state.cpp:48-81 | tokens for bytes and bytes for tokens change exactly the two balances, by what goes in and by what the two power functions pay, and fail exactly when one of those is out of range |
| LedgerEffects.BuyIff | contracts/eosio.system/delegate_bandwidth.cpp:109-157 | a purchase goes through if and only if the payer can pay a price above one, the market is open and pays at least one byte for the price less the fee |
| LedgerEffects.BuySets | contracts/eosio.system/delegate_bandwidth.cpp:109-157 | a purchase gives the receiver the bytes the market pays for the price less the fee and moves market, reserved bytes and RAM stake by the same amounts; net, cpu and all other tables stay |
| LedgerEffects.BuyBytesIs | contracts/eosio.system/delegate_bandwidth.cpp:92-98 | asking for bytes is a purchase at the price the market pays for them, taken before anything changes |
| LedgerEffects.SellIff | contracts/eosio.system/delegate_bandwidth.cpp:166-205 | a sale goes through if and only if the seller has the bytes and cyber.ram and the RAM stake cover more than one token that the market pays for them |
| LedgerEffects.SellSets | contracts/eosio.system/delegate_bandwidth.cpp:166-205 | a sale pays what the market gives for the bytes and moves market, reserved bytes and RAM stake by the same amounts; net, cpu and all other tables stay |
| LedgerEffects.SetRamExact | contracts/eosio.system/eosio.system.cpp:56-76 | RAM can only grow, below 2^50 bytes and above what is reserved; exactly what is added can be bought in addition |
| LedgerRefunds.RunTimed | contracts/eosio.system/delegate_bandwidth.cpp:296-341 | a pending refund carries the time of its owner's latest undelegation |
| LedgerRefunds.RefundWaitsIff | contracts/eosio.system/delegate_bandwidth.cpp:412-427 | in every run a refund that is paid comes the full delay after its owner's latest undelegation, and so after every earlier one, if and only if the delay did not run past the end of the 32-bit clock when it was requested |
| LedgerExamples.RefundedAtOnce | contracts/eosio.system/delegate_bandwidth.cpp:412-427 | a run in which stake taken back on the last tick of the clock is refunded at once |
| LedgerContract.Contract.Transfer | contracts/eosio.token/eosio.token.cpp:62-85 | the row-by-row transfer refines the balance function, failures included |
| LedgerContract.Contract.Issue | contracts/eosio.token/eosio.token.cpp:32-60 | issuing to the issuer and passing on refines the specification |
| LedgerContract.Contract.UpdateRefund | contracts/eosio.system/delegate_bandwidth.cpp:281-343 | the stepwise netting against an existing request equals max(0, request - change), and leaves max(0, change - request) to pay, for net and for cpu; UndelegationPends and DelegationEatsUp say what that makes of each half |
| LedgerContract.Contract.ChangeBandwidth | contracts/eosio.system/delegate_bandwidth.cpp:215-385 | the table-by-table change refines the specification |
| LedgerContract.Contract.RefundOwner | contracts/eosio.system/delegate_bandwidth.cpp:412-427 | refunding erases the request and moves its amount |
| LedgerContract.Contract.ConvertAsset | contracts/eosio.system/exchange_state.cpp:48-81 | the recursive, state-changing conversion refines the conversion function |
| LedgerContract.Contract.BuyRam | contracts/eosio.system/delegate_bandwidth.cpp:109-157 | buying, with its inline transfers, refines the specification |
| LedgerContract.Contract.BuyRamBytes | contracts/eosio.system/delegate_bandwidth.cpp:92-98 | the price is taken on a copy of the market and then paid as in a purchase |
| LedgerContract.Contract.SellRam | contracts/eosio.system/delegate_bandwidth.cpp:166-205 | selling, with its inline transfers, refines the specification |
| LedgerContract.Contract.SetRam | contracts/eosio.system/eosio.system.cpp:56-76 | growing RAM adds the difference to the base balance, within its limits |
| LedgerContract.Contract.Push | contracts/eosio.system/delegate_bandwidth.cpp:92-427 | an action is applied as a whole or not at all |
| BlockLogFormat.RecordAt | libraries/chain/block_log.cpp:284-313 | the log holds, at each block's start, the block and then its own position |
| BlockLogFormat.LogBegins | libraries/chain/block_log.cpp:258-275 | a log begins with version 1 in four bytes, and its first block follows them |
| BlockLogFormat.ReadAt | libraries/chain/block_log.cpp:119-141 | reading at a block's start returns that block and the start of the next, also when the read is cut at the maximum block size |
| BlockLogFormat.IndexAt | libraries/chain/block_log.cpp:109-117 | entry n-1 of the index is where block n starts |
| BlockLog.LostEntriesAreRebuilt | libraries/chain/block_log.cpp:220-255 | an index that lost any number of whole entries at its end is not trusted, and is rebuilt to the one appending made |
| BlockLog.CutIndexIff | libraries/chain/block_log.cpp:220-255 | of all beginnings of the true index, byte by byte, opening ends with the whole index exactly for those of less than four bytes, of whole entries, or whose broken last entry is not misread as the last block's position |
| BlockLogExample.BrokenIndexIsTrusted | libraries/chain/block_log.cpp:232-245 | three blocks for which the first 15 bytes of the index are taken for complete and kept |
| BlockLog.Log.Reset | libraries/chain/block_log.cpp:258-275 | a reset log is the empty log |
| BlockLog.Log.Append | libraries/chain/block_log.cpp:284-313 | appending goes through exactly for the next block of at most 2097152 bytes, and then extends both files by one block; otherwise the error says which check failed and nothing changes |
| BlockLog.Log.ReadBlockByNum | libraries/chain/block_log.cpp:587-600 | every appended block is found under its number, and nothing under any other |
| BlockLog.Log.ReadHead | libraries/chain/block_log.cpp:143-151 | the head read back is the last block appended; an empty file has none, and a file with only the version is an error |
| BlockLog.Log.ConstructIndex | libraries/chain/block_log.cpp:171-189 | the walk from record to record rebuilds exactly the index appending made |
| BlockLog.Log.Open | libraries/chain/block_log.cpp:220-255 | opening fails exactly on an index of four to seven bytes and then changes no file, keeps an index whose last eight bytes are the last block's position, and rebuilds any other; from a beginning of the true index it ends where appending left off exactly when that is recoverable; files without records stay as they are unless there is an index, with which both are emptied |
| FloatConversion.Clz128 | libraries/builtins/int_t.h:45-52 | counting in one of two words gives 128 minus the number of binary digits |
| FloatConversion.Fold | libraries/builtins/floatuntidf.c:43-53 | shifting with a sticky digit keeps the quotient and whether the rest is zero, below, at or above one half |
| FloatConversion.Round | libraries/builtins/floatuntidf.c:54-57 | or-ing, adding one and dropping two digits rounds to nearest, ties to even |
| FloatConversion.FromUnsigned | libraries/builtins/floatuntidf.c:26-76 | no finite double is nearer to the integer, and on a tie the last digit is even, for every unsigned 128-bit integer (roundTiesToEven, section 4.3.1 of IEEE 754-2008) |
| FloatConversion.FromSigned | libraries/builtins/floattidf.c:26-79 | the same for every signed 128-bit integer, with the sign of the argument |
| Doubles.NoDoubleBetween | libraries/builtins/floatuntidf.c:33-65 | no double lies strictly between neighbouring multiples of the rounding unit, which is what makes the neighbours the only candidates |
| FloatConversion.Truncates | libraries/builtins/fixunsdfti.c:15-37 | a double in range is cut to the integer below it |
| FloatConversion.ThereAndBack | libraries/builtins/fixunsdfti.c:15-37 | converting there and back gives the nearest double's value, capped at the largest integer |
| FloatConversion.ThereAndBackExact | libraries/builtins/fixunsdfti.c:15-37 | an integer survives the way there and back if and only if it has at most 53 significant digits or is the largest one |
| PermissionTree.RootIsOwner | libraries/chain/authorization_manager.cpp:48-74 | climbing from any permission ends at the owner permission of the same account: parents neither dangle nor cycle, and there is one tree per account |
| PermissionTree.ActiveBelowOwner | libraries/chain/eosio_contract.cpp:123-128 | the active permission sits directly below the owner permission |
| PermissionTree.NewAccountKeeps | libraries/chain/eosio_contract.cpp:79-138 | a new account gets its own tree and disturbs no other |
| PermissionTree.UpdateAuthKeeps | libraries/chain/eosio_contract.cpp:269-337 | creating or changing a permission keeps every tree and removes nothing |
| PermissionTree.DeleteAuthKeeps | libraries/chain/eosio_contract.cpp:339-371 | deleting removes exactly that permission and keeps every tree |
| PermissionTree.RunTrees | libraries/chain/eosio_contract.cpp:79-441 | every run of the five actions keeps every account's permissions one tree |
| PermissionTree.DanglingStep | libraries/chain/eosio_contract.cpp:339-371 | no deleteauth makes a link dangle; only a linkauth naming a permission the account lacks leaves one dangling |
| PermissionTree.RunDangling | libraries/chain/eosio_contract.cpp:353-360 | a link that dangles in any run was set by a linkauth that named a permission the account did not have then |
| PermissionTree.LinkDanglesIff | libraries/chain/eosio_contract.cpp:373-421 | a linkauth that goes through leaves a dangling link if and only if the account lacks the required permission |
| PermissionTree.LinkToAStrangersPermission | libraries/chain/eosio_contract.cpp:389-393 | the lookup by name alone lets an account link to a permission only another account has |
| PermissionTree.NeighboursReached | libraries/chain/eosio_contract.cpp:79-138 | that situation is reached by two actions from genesis |
| PermissionEffects.NewAccountIff | libraries/chain/eosio_contract.cpp:79-138 | newaccount goes through if and only if both authorities are valid, the name is new, not empty, of at most 12 characters and does not begin with a dot, and only a privileged creator takes a reserved prefix |
| PermissionEffects.NewAccountSets | libraries/chain/eosio_contract.cpp:79-138 | the new account's owner and active permissions carry each its own authority, active below owner, and no other row or link changes |
| PermissionEffects.UpdateAuthIff | libraries/chain/eosio_contract.cpp:269-337 | updateauth goes through if and only if the name and authority are valid, the parent exists and fits the rules for owner and active, and an existing permission keeps its parent |
| PermissionEffects.UpdateAuthSets | libraries/chain/eosio_contract.cpp:269-337 | after an updateauth the account's permission of that name carries exactly the given authority below the given parent; every other permission keeps its authority, and no row changes otherwise |
| PermissionEffects.DeleteAuthIff | libraries/chain/eosio_contract.cpp:339-371 | deleteauth goes through if and only if the permission exists, is neither owner nor active, no link of the account names it and no permission is below it |
| PermissionEffects.DeleteAuthSets | libraries/chain/eosio_contract.cpp:339-371 | exactly that permission is gone, and every other keeps its authority |
| PermissionEffects.LinkSets | libraries/chain/eosio_contract.cpp:373-441 | linkauth and unlinkauth go through exactly under their checks, and set or remove exactly one link and nothing else |
| PermissionEffects.RunAuthority | libraries/chain/eosio_contract.cpp:79-441 | in every run of the five actions a permission has the authority last given for it, or the one it started with if none was |
| PermissionManager.AboveIsAnOrder | libraries/chain/include/eosio/chain/permission_object.hpp:40-48 | being above is transitive, and no two permissions are above each other |
| PermissionManager.OwnerAboveAll | libraries/chain/include/eosio/chain/permission_object.hpp:40-48 | the owner permission is above all permissions of its account |
| PermissionManager.Manager.Satisfies | libraries/chain/include/eosio/chain/permission_object.hpp:50-70 | the climb up the parents terminates and answers whether one permission is the other or above it |
| PermissionManager.Manager.FindPermission | libraries/chain/authorization_manager.cpp:104-114 | an empty owner or name is an error; otherwise the index finds the one permission of that owner and name, or none |
| PermissionManager.Manager.CreatePermission | libraries/chain/authorization_manager.cpp:48-74 | a permission is added under an identifier that no permission had |
| PermissionManager.Manager.NewAccount | libraries/chain/eosio_contract.cpp:79-138 | the action succeeds exactly as specified and keeps the trees |
| PermissionManager.Manager.UpdateAuth | libraries/chain/eosio_contract.cpp:269-337 | the same for updateauth, whose effect on authorities UpdateAuthSets gives |
| PermissionManager.Manager.DeleteAuth | libraries/chain/eosio_contract.cpp:339-371 | the same for deleteauth, with the link and children checks |
| PermissionManager.Manager.LinkAuth | libraries/chain/eosio_contract.cpp:373-421 | the same for linkauth |
| PermissionManager.Manager.UnlinkAuth | libraries/chain/eosio_contract.cpp:423-441 | the same for unlinkauth |

## Left out

- Cryptography: signatures, digests and Merkle roots; ids are opaque, and a signature check is a yes or no given from outside.
- Confirmations.NoDoubleConfirm: is stated for headers that claim no more blocks than exist, because of the wrap-around that ClaimsOverlapIffWrapped makes exact.
- Confirmations.ProposedIffQuorum: promises a quorum of distinct producers only where the quorum is at most 256 and no claim is repeated, which QuorumIff shows to be exact; that contracts propose at most 125 producers is checked when they do, and not in the headers that next takes.
- Irreversibility.IrreversibleGrows: says nothing about the step after a promotion, for which IrreversibleStepIff has the exact condition.
- 32-bit wrap of block numbers and slots, other than in the subtraction above.
- Runs of the controller's own block production, which builds on generate_next directly and does not pass the double-confirm check of next.
- Fork database files, set, set_validity and the head after a confirmation, which the code does not choose again.
- ForkDatabase.ForkDatabase.Add: promises that the chosen head stays only where it is favoured, which HeadSurvivesIff shows to be exact; it asks for what a block state built on its parent has, consecutive numbers and an irreversible number not above its own, and for ids that are not reused.
- ForkDatabase.ForkDatabase.AddSigned: takes the state that next gives for the block, with the BFT number of its parent and no confirmations.
- ForkDatabase.ForkDatabase.Prune: runs its sibling loop over the set of blocks of that number; iterator validity during removal is not modelled, and an emptied index has no head.
- AbiRoundTrip.RoundTrip: excludes bases with the names described above by a condition on the ABI; when such an ABI happens to give an object back is not characterised.
- AbiNormal.NormalComesBack: excludes ABIs in which a struct and its bases have two fields of one name or the name of an optional is an alias that leads to none, and asks that the normal form is canonical, as RoundTrip does; two fields of one name are read into one entry, which is not characterised further.
- AbiRoundTrip.OmittedRoundTrip: is about omitted extensions; for omitted optionals see NormalComesBack.
- AbiRoundTrip.BuiltinRoundTrip: takes the built-in types as given; that a particular one delimits itself is proved for fixed widths, unsigned variable-length numbers and bytes.
- ABI display mode, structs given as arrays, error texts and deadlines.
- HeapMemory.Memory.Malloc: keeps the heap tiled only where the sum does not wrap around; what it does otherwise is stated word by word, and ServesIff has the exact condition.
- realloc in place, which reads headers beyond the used part of the heap; sbrk and the choice among several heaps.
- Vote weights and the producer pay split, computed in doubles; votes enter the ledger model as stake only.
- Assets other than the core token, which every modelled action refuses; creation of the token; scheduling of the deferred refund.
- LedgerState: 64-bit wrap of the market's own counters under a power function that returns huge values; the quotient in the vesting check is exact instead of a double.
- BlockLog.Log.Open: asks that the block file is one that appending made; what the code does on a damaged log is not modelled.
- Block log repair, truncation and file mapping.
- Conversions to signed integers and the other soft-float routines.
- Authority contents and the satisfaction of authorities by keys: whether an authority is well formed is given with the action, and actions carry the authority they need.
- Storage payers, resource limits, msig and the sample contracts, which would only add easy members.
