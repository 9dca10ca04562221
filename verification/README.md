# A verified model of the DHT node

The repository is a BitTorrent DHT (Kademlia) node in Rust. This project models, in Dafny, the
state machines and the arithmetic beneath its sockets and proves what they guarantee. One module
follows one part of the program:

- **Identifiers** (`Bits`, `U160s`, `Shifts`): a 160-bit number in a 128-bit and a 32-bit limb. Its
  order, bits, XOR distance and shifts are related to one natural number. Words are natural numbers
  below a power of two, and facts about bitwise operators are proved bit by bit.
- **Routing table** (`Chains`, `ChainUpdates`, `ChainLookup`, `ChainNearest`, `Buckets`, `SavedChain`):
  the linked chain of k-buckets. `Buckets` holds the objects updated in place, with their loops; each
  method is proved equal to a function of `Chains` on the chain's value, and the invariants and the
  lookup guarantees are proved about those functions and about whole runs of them. `SavedChain` is
  the depth-first saved form and its reader.
- **Routing table under concurrency** (`LockSteps`, `LockSafety`, `LockExclusion`, `LockPlacement`,
  `LockDepth`, `LockPanics`, `LockStrays`, `LockAccounts`, `LockLosses`, `LockProgress`,
  `LockTermination`, `LockInserts`, `LockAnomalies`, `LockRefinement`): any number of concurrent calls
  as a state machine whose steps lie between two lock operations, with safety, absence of deadlock,
  termination, conservation of nodes, refinement of the sequential table by uninterrupted calls, and
  exactly which steps leave a node where no descent finds it, lose a stored node, or make a call panic.
- **Router** (`Routers`): the window of banned identifiers over the table.
- **Search and sweep** (`Searches`, `SearchResults`, `SearchReplies`, `Sweeps`, `SweepRuns`,
  `SweepAnswers`): the worklist algorithms against an arbitrary network, where any pending query may
  finish next with any answer; what each answer does is stated on the network itself.
- **Codecs, identifiers from addresses, tokens, peer storage, messages** (`BigEndian`, `Codecs`,
  `NodeIds`, `Tokens`, `Servers`, `Messages`, `MessageRecords`): encodings on the bytes that this code
  builds itself, BEP 42 identifiers, announce tokens, the announce and get_peers handlers, and the
  mapping between typed messages and KRPC records.

What comes from outside is a parameter: the network's answers, the order in which tasks finish, the
clock, the random bytes, the checksum and the key stream are arbitrary functions and values, so
every theorem holds for all of them. `Option` and `Result` results stand for panics and errors.

Where a promise turned out to be false of the code, the code is kept, a lemma gives the input that
breaks it, and the promise is decided by an exact condition:

- `<< r` multiplies if and only if r < 32, r >= 160 or the lowest bit is clear
  (`Shifts.ShlIsMultiplication`; broken by `Shifts.ShlLosesLowestBit`), and `>> 255` is right for the
  operands that `Shifts.ShrBy255` names.
- `lookup` gives the k closest for all targets if and only if the bucket sizes satisfy `GapFree` and
  `Exact` (`ChainNearest.KClosestExactlyWhen`; broken by `ChainNearest.ThreeAddsMiss`); in every state it
  is band-optimal (`ChainLookup.LookupIsBandOptimal`).
- Answers are free of repetition if and only if the sizes satisfy `GapFree`
  (`ChainLookup.AnswersDistinctIffGapFree`; broken by `ChainNearest.TwoRemovalsRepeat`).
- A finished concurrent schedule leaves every node where its descent leads if and only if no late
  store and no abandoned split left one astray for good (`LockStrays.PlacedExactlyWhen`; broken by
  `LockAnomalies.SplitCanMisplaceAnAdd` and `LockAnomalies.PanicAbandonsASplit`).
- A node once stored by concurrent calls stays until a step drops its last copy: a removal takes it, an
  add that carries it for a split is refused, or a panic drops it (`LockLosses.TickKeepsExactly` and
  `LockLosses.StoredExactlyWhenKept`; broken by `LockAnomalies.SplitCanLoseANode`).
- A concurrent add can panic only after a removal took a node from a full last bucket it was deciding
  on (`LockPanics.PanicNeedsRemoval`), and then, going on alone, does so if and only if its node does
  not belong there (`LockPanics.UnderminedAddPanics`; broken by `LockAnomalies.RemovalCanPanicAnAdd`).
- A finished sweep has queried every node that entered if and only if no backfill stored a new one
  after the last query was started (`SweepRuns.LeftInQueueExactlyWhen`; broken by
  `SweepRuns.SweepCanLeaveNodes`).
- Saving what was loaded gives the file back if and only if its depth is the number of its vectors
  (`SavedChain.SaveAfterLoad`).
- A message survives if and only if it is not a data answer without a value
  (`Messages.MessageRoundTrip`).

`dafny verify dfyconfig.toml` checks everything.

## Model

| member | source | states |
|---|---|---|
| `Bits.BitsDecide` | src/u160.rs:101-131 | words of one width are equal as soon as their bits are; every fact about `&`, `\|`, `^`, `<<`, `>>` is closed with it |
| `Bits.BitwiseBit` | src/u160.rs:101-123 | bit `i` of `x op y` is the gate applied to bit `i` of `x` and of `y`, for and, or and xor |
| `Bits.XorAtMostSum` | src/u160.rs:101-107 | xor never exceeds the sum of its operands |
| `U160s.LessIsNumeric` | src/u160.rs:7-11 | the derived field-by-field order is the order of the 160-bit numbers |
| `U160s.GetBitIsMaskTest` | src/u160.rs:92-98 | `get_bit` is the mask-and-compare of the code, in both limbs and past the last bit |
| `U160s.GetBitIsNatBit` | src/u160.rs:92-98 | `get_bit(i)` reads bit `159 - i` of the one number |
| `U160s.XorIsNatXor` | src/u160.rs:101-107 | xor of the limbs is xor of the numbers |
| `U160s.DistanceBit` | src/u160.rs:55-57 | a bit of the distance is set exactly where the identifiers differ |
| `U160s.DistanceIsMetric` | src/u160.rs:55-57 | `distance` is zero only on equal identifiers, symmetric, and satisfies the triangle inequality over the naturals |
| `U160s.DistanceIsUnidirectional` | src/u160.rs:55-57 | exactly one identifier lies at each distance from a point |
| `U160s.FirstDifferingBitDecides` | src/u160.rs:92-107 | the first `get_bit` index where two identifiers differ decides their order |
| `U160s.CommonPrefixIsLongest` | src/u160.rs:92-98 | the prefix function finds the longest shared prefix |
| `U160s.LongerPrefixIsCloser` | src/u160.rs:55-57 | a strictly longer prefix shared with the target means strictly closer to it |
| `U160s.PrefixCount` | src/u160.rs:92-107 | at most 2^(160-n) distinct identifiers share n bits with a given one |
| `Shifts.ShrIsFloorDivision` | src/u160.rs:133-149 | `>> r` is floor division by 2^r for every r up to 254, in both build modes |
| `Shifts.ShrBy255` | src/u160.rs:140 | `>> 255` panics with overflow checks; without them the exact operands for which the result is still right |
| `Shifts.ShlProduct` | src/u160.rs:151-168 | `<< r` is multiplication modulo 2^160 of the operand, or of the operand without its lowest bit for r from 32 to 159 |
| `Shifts.ShlIsMultiplication` | src/u160.rs:151-168 | `<< r` multiplies modulo 2^160 if and only if r < 32, r >= 160, or the lowest bit is clear |
| `Shifts.ShlLosesLowestBit` | src/u160.rs:155-159 | the number one shifted by any r from 32 to 159 gives zero, where multiplication would not |
| `NodeInfos.NodeOrder` | src/node_info.rs:121-138 | the order of nodes (identifier, then address) is strict and total |
| `NodeInfos.NodeTransitive` | src/node_info.rs:121-138 | the order of nodes is transitive |
| `NodeInfos.NodeOrderGoesBy` | src/node_info.rs:121-138 | the identifier decides, then IPv4 before IPv6, the first octet that differs, and the port |
| `Chains.AddOrUpdateOutcome` | src/router/bucket.rs:59-72 | a known identifier moves to the end with its stored address, an unknown one is appended if there is room, nothing is dropped |
| `Chains.SwapRemoveConserves` | src/router/bucket.rs:137 | `swap_remove` takes out exactly the indexed node |
| `Chains.SwapRemoveAt` | src/router/bucket.rs:137 | every element keeps its place but the last, which takes the place of the removed one |
| `Chains.RemovalKeepsOrder` | src/router/bucket.rs:97-110 | a removal keeps the order of the vector |
| `Chains.Lookup` | src/router/bucket.rs:74-94 | an answer has at most k nodes, so no gap subtraction underflows |
| `ChainUpdates.BelongsIffDiffers` | src/router/bucket.rs:145-151 | an identifier belongs in a bucket exactly when it and the owner differ in the bit of the bucket's index |
| `ChainUpdates.SplitConserves` | src/router/bucket.rs:130-140 | the in-place partition keeps the multiset of nodes, separates it exactly by the bucket bit, and refuses or loses no re-added node |
| `ChainUpdates.KeptInPlace` | src/router/bucket.rs:130-140 | a node that belongs stays at its position; only the places of moved nodes are filled, from behind |
| `ChainUpdates.SplitExactlyWhenFull` | src/router/bucket.rs:40-57 | an add splits a bucket if and only if it is the last one, full, and not at the last index |
| `ChainUpdates.SplitKeepsInv` | src/router/bucket.rs:112-143 | splitting a full last bucket keeps the table invariant and its contents |
| `ChainUpdates.AddKeepsInv` | src/router/bucket.rs:40-57 | `add` keeps the invariant and evicts nothing: contents gain at most the node, which if absent is refused only when its final bucket is full or the depth bound is met |
| `ChainUpdates.StoredAtHome` | src/router/bucket.rs:97-110 | every stored node sits in the bucket where the descent for its identifier stops |
| `ChainUpdates.StoredIffAtHome` | src/router/bucket.rs:97-110 | an identifier is stored anywhere if and only if it is stored where its descent stops |
| `ChainUpdates.ContentsDistinct` | src/router/bucket.rs:41-72 | identifiers are unique across the whole chain |
| `ChainUpdates.NeverExhausted` | src/router/bucket.rs:113-116 | no full bucket at the last index exists at the head of a well-placed chain for k of at least 3, by counting identifiers that share a prefix |
| `ChainUpdates.RunsNeverExhaust` | src/router/bucket.rs:113-116 | after any run, whichever bucket a descent stops at, the refusal at the last index is unreachable for k of at least 3 |
| `ChainUpdates.AddAfterRun` | src/router/bucket.rs:40-57 | after any run an add bumps a known identifier, stores an unknown one at the end of its descent, or refuses it only because that bucket is full and has a next one |
| `ChainUpdates.DepthBound` | src/router/bucket.rs:113-116 | with k = 8 no bucket past index 158 ever exists |
| `ChainUpdates.RemoveKeepsInv` | src/router/bucket.rs:96-110 | `remove` keeps the invariant, reports true if and only if the identifier was stored, and takes out that node and no other |
| `ChainUpdates.Run` | src/router/bucket.rs:25-151 | every run of adds and removes from `root` satisfies the invariant: indices, capacity, placement by first differing bit, uniqueness |
| `ChainLookup.LookupIsSound` | src/router/bucket.rs:74-94 | only stored nodes are returned |
| `ChainLookup.ShortAnswerIsComplete` | src/router/bucket.rs:74-94 | an answer of fewer than k nodes contains every stored node |
| `ChainLookup.AnswerLength` | src/router/bucket.rs:74-94 | in all states the length is between min(k, total) and k |
| `ChainLookup.AnswersDistinctIffGapFree` | src/router/bucket.rs:74-94 | answers to all targets are free of repetition if and only if no bucket below the first leaves a lookup short and asked twice |
| `ChainLookup.ExactAnswer` | src/router/bucket.rs:74-94 | if every bucket with a successor heads at least k nodes, each lookup gives exactly min(k, total) distinct stored nodes |
| `ChainLookup.AddKeepsDense` | src/router/bucket.rs:40-57 | `add` preserves that density |
| `ChainLookup.AddsAloneStayExact` | src/router/bucket.rs:40-94 | after any run of adds alone every lookup is exact |
| `ChainLookup.LookupIsBandOptimal` | src/router/bucket.rs:74-94 | in every reachable state no omitted stored node has a strictly longer capped prefix with the target than a returned one |
| `ChainLookup.MissedOnlyWithinBand` | src/router/bucket.rs:74-94 | an omitted node that is closer than a returned one shares its capped prefix |
| `ChainLookup.AnswerIsOrderedByBand` | src/router/bucket.rs:74-94 | where answers do not repeat, they are ordered by non-increasing capped prefix |
| `ChainNearest.KClosestExactlyWhen` | src/router/bucket.rs:74-94 | the documentation's promise (README.md, line 28) that a lookup gives the k closest, decided: it holds for all targets if and only if the bucket sizes leave no gap and satisfy `Exact` |
| `ChainNearest.ExactIsKClosest` | src/router/bucket.rs:74-94 | under that condition on sizes each answer has min(k, total) distinct stored nodes, and every other stored node is strictly farther than each of them |
| `ChainNearest.NearestCanBeMissed` | README.md:28 | wherever a table without gaps fails `Exact`, some target is answered with a node and without a stored, strictly closer one |
| `ChainNearest.ThreeAddsMiss` | README.md:28 | three adds to an empty table of capacity 2 reach a table without gaps that is not exact |
| `ChainNearest.TwoRemovalsRepeat` | src/router/bucket.rs:74-94 | two removals after them leave a gap, and the lookup of the owner returns the one remaining node twice |
| `Buckets.Bucket.constructor` | src/router/bucket.rs:26-34 | a new bucket is the empty chain of its index |
| `Buckets.Bucket.Add` | src/router/bucket.rs:41-57 | the linked objects after `add` hold `Chains.Add` of what they held |
| `Buckets.Bucket.AddOrUpdate` | src/router/bucket.rs:59-72 | the swap loop bumps, or the node is pushed, exactly as `Chains.AddOrUpdate` |
| `Buckets.Bucket.MakeNextBucket` | src/router/bucket.rs:112-143 | the partition loop with its recursive adds terminates and yields `Chains.SplitBucket`, or reports the depth bound |
| `Buckets.Bucket.Lookup` | src/router/bucket.rs:75-94 | the extended vector equals `Chains.Lookup`, and nothing changes |
| `Buckets.Bucket.Remove` | src/router/bucket.rs:97-110 | the objects and the result equal `Chains.Remove` |
| `SavedChain.LoadAfterSave` | src/router/bucket.rs:188-247 | loading what saving a chain from index 0 wrote gives back the equal chain, with overflow checks and without |
| `SavedChain.ReachableTableRoundTrips` | src/router/bucket.rs:188-257 | every table reached by adds and removes survives saving and loading, index, nodes, order and links |
| `SavedChain.SavedLayout` | src/router/bucket.rs:188-207 | element by element: owner, capacity, the number of buckets, and their vectors from the deepest bucket to the first |
| `SavedChain.SaveAfterLoad` | src/router/bucket.rs:188-247 | saving what was loaded gives back the saved form if and only if its depth is the number of its vectors; any other depth shifts the index of every bucket, modulo 256 |
| `SavedChain.SerializeDepthFirst` | src/router/bucket.rs:199-207 | the recursive writer emits the depth and then the vectors, deepest first |
| `SavedChain.Save` | src/router/bucket.rs:188-197 | the objects are written as the saved form of their value |
| `SavedChain.ProblemExactlyWhen` | src/router/bucket.rs:220-243 | which error a malformed input gives: an early end, no vector, a depth below the number of vectors under overflow checks, or an element of another type |
| `SavedChain.Reduce` | src/router/bucket.rs:236-242 | folding child into parent links all loaded buckets in order |
| `SavedChain.Load` | src/router/bucket.rs:220-243 | the reader builds the loaded chain, its indices counted down as bytes, or fails exactly as the malformed input makes it; a decrement below zero panics with overflow checks and wraps without |
| `Routers.BanKeepsSound` | src/router.rs:37-49 | a ban takes out the identifier if and only if it is stored, and nothing else, and keeps the router sound |
| `Routers.AdmitKeepsSound` | src/router.rs:27-31 | an offer from a banned identifier changes nothing; any other node is added with the outcomes of `add`, and no banned identifier gets stored |
| `Routers.Run` | src/router.rs:27-49 | every run of router calls keeps table invariant, window bound, and banned identifiers unstored |
| `Routers.WindowIsLatestBans` | src/router.rs:15-49 | after every run the window is exactly the last 99 (or fewer) bans in order, and none of them is stored |
| `Routers.RunOutcomes` | src/router.rs:27-49 | after any run one more call adds, removes or leaves exactly what it should |
| `Routers.OfferedIsFound` | src/router.rs:27-35 | a node offered to a fresh router is the answer of the next lookup of it |
| `Routers.Router.Add` | src/router.rs:27-31 | the objects after `add` are `Admit` of what they were |
| `Routers.Router.Lookup` | src/router.rs:33-35 | answers `Chains.Lookup` of the table |
| `Routers.Router.BanId` | src/router.rs:37-49 | the objects after `ban_id` are `Ban` of what they were |
| `LockSafety.TickIsSafe` | src/router/bucket.rs:41-143 | one step of any interleaved call keeps every bucket within k and free of repeats, indices consecutive, and answers within k; set successors stay |
| `LockSafety.AnyInterleavingIsSafe` | src/router/bucket.rs:41-143 | so does every schedule of any concurrent adds, lookups and removes |
| `LockPanics.PanicNeedsRemoval` | src/router/bucket.rs:46-53 | no schedule panics unless some step of it removes a node from a full last bucket while an add is between its length check and its second look at that bucket |
| `LockPanics.UnderminedAddPanics` | src/router/bucket.rs:46-53 | after such a step that add, going on alone, panics if and only if its node does not belong in the bucket |
| `LockPanics.UnderminedAddExists` | src/router/bucket.rs:46-53 | in every reachable state such a step endangers an add in exactly that way, so the two halves meet |
| `LockPanics.AddsAndLookupsNeverPanic` | src/router/bucket.rs:53 | in every schedule of adds and lookups the `unwrap` of the next bucket never fails |
| `LockExclusion.RunsAreExclusive` | src/router/bucket.rs:112-143 | in every reachable state at most one call is splitting each bucket, and a lock is held if and only if a split in progress holds it |
| `LockExclusion.RunsLeaveHeldAlone` | src/router/bucket.rs:59-143 | while a split holds the lock of a bucket, no other call reads its vector, changes it, or begins to split it, in any reachable state |
| `LockPlacement.RunsAreGuided` | src/router/bucket.rs:41-57 | in every reachable state stored nodes and those of insertions in progress share the owner's prefix up to their bucket, and a split has passed only nodes that belong |
| `LockProgress.NoDeadlock` | src/router/bucket.rs:130-140 | in every reachable state some unfinished call can take a step, although a split holds its lock while it adds to the next bucket |
| `LockTermination.FewStepsMatter` | src/router/bucket.rs:41-143 | every schedule, however long, has at most as many steps with an effect as a budget computed from the calls |
| `LockTermination.CallsCanFinish` | src/router/bucket.rs:41-143 | from every reachable state some schedule brings all calls to their end |
| `LockAnomalies.RemovalCanPanicAnAdd` | src/router/bucket.rs:46-53 | a schedule in which a removal between the length checks makes an add panic |
| `LockAnomalies.SplitCanMisplaceAnAdd` | src/router/bucket.rs:42-44 | a schedule in which an add stores into a bucket that another call has split, where no descent finds the node |
| `LockAnomalies.StaleRemovalFindsIt` | src/router/bucket.rs:97-110 | a schedule in which a removal that stopped at the bucket before its split takes the misplaced node out again |
| `LockAnomalies.PanicAbandonsASplit` | src/router/bucket.rs:130-140 | a schedule in which a panic inside a split leaves behind a node that the split had still to move, with every call over and no late store involved |
| `LockStrays.TickIsExact` | src/router/bucket.rs:41-143 | one step of any call, exactly: an identifier is stored where no descent finds it afterwards if and only if it was and no stale removal takes it, or it is stored into a bucket split before, or a panic ends the split that would have moved it |
| `LockStrays.StrayedExactlyWhenLeft` | src/router/bucket.rs:41-143 | so for every identifier, bucket and schedule, those events alone decide whether it ends up stored where no descent finds it |
| `LockStrays.PlacedExactlyWhen` | src/router/bucket.rs:41-143 | when all calls are over, every node is where its descent leads if and only if those events left none astray, and then no identifier occurs twice |
| `LockStrays.LeftExactlyWhenPushed` | src/router/bucket.rs:41-94 | with adds and lookups alone one late store leaves its identifier where no descent finds it, for good, and nothing else does |
| `LockStrays.AddsArePlacedExactlyWhen` | src/router/bucket.rs:41-94 | a finished schedule of adds and lookups is placed if and only if no step stored into a bucket split before |
| `LockStrays.QuietSchedulesArePlaced` | src/router/bucket.rs:41-143 | every finished schedule of any calls is placed and free of repeats if no step stores late and no removal undermines an add |
| `LockAnomalies.SplitCanLoseANode` | src/router/bucket.rs:59-143 | a schedule that ends without removal, panic or late store, every node in its place, and a node that had been stored in none: an overtaken split adds it to a bucket that is full by then |
| `LockAccounts.TickConserves` | src/router/bucket.rs:41-143 | one step of any call from any state: the nodes stored or carried by a split afterwards, with those dropped, are the nodes stored or carried before, with those gained |
| `LockLosses.RunConserves` | src/router/bucket.rs:41-143 | so over every schedule: no node appears, is copied or disappears except as those steps say |
| `LockLosses.FinishedTableConserves` | src/router/bucket.rs:41-143 | when all calls are over, the table and all that was dropped are exactly what the calls have stored |
| `LockLosses.TickKeepsExactly` | src/router/bucket.rs:41-143 | an identifier is stored or carried after a step if and only if it is stored by it, or was before and its last copy is not removed, refused on its way to the next bucket, or dropped by a panic |
| `LockLosses.StoredExactlyWhenKept` | src/router/bucket.rs:41-143 | for every finished schedule those events alone decide whether the table has an identifier |
| `LockLosses.OnlyRefusalsLose` | src/router/bucket.rs:41-94 | with adds and lookups alone an identifier once stored stays as long as no carried copy of it is refused |
| `LockDepth.RunsFit` | src/router/bucket.rs:112-143 | in every reachable state the bucket above the last, and each one about to be split, has an index at which k identifiers can share the prefix |
| `LockDepth.InterleavedDepthBound` | src/router/bucket.rs:113-116 | with k = 8 no interleaving creates a bucket past index 158 |
| `LockDepth.NeverMakesPastLast` | src/router/bucket.rs:113-116 | for k of at least 3 no interleaving reaches the refusal at the last index |
| `LockInserts.InsertionEnds` | src/router/bucket.rs:41-143 | the step with which an insertion ends leaves its identifier in the bucket where it stood, or that bucket full, unless it is to be split at the last index |
| `LockInserts.NoInsertionIsAbandoned` | src/router/bucket.rs:41-143 | in every schedule, an insertion that is over and did not panic ended so, in a bucket to which the prefix of its node leads |
| `LockRefinement.UninterruptedCallIsAtomic` | src/router/bucket.rs:41-143 | a call that is not interrupted does, step by step, exactly what the atomic operation does; a lookup leaves its nodes and a removal its boolean as the answer |
| `LockRefinement.ResumedAdd` | src/router/bucket.rs:41-57 | an add that finds a next bucket, wherever it was interrupted, goes on as the atomic add on the chain that it finds |
| `LockRefinement.ResumedInFull` | src/router/bucket.rs:41-57 | so does one in a last bucket that is full |
| `LockRefinement.ResumedInRoom` | src/router/bucket.rs:42-44 | one that has seen room stores into that bucket whatever became of it since |
| `LockRefinement.ResumedLookup` | src/router/bucket.rs:74-94 | a lookup that was interrupted tops up what it has collected from this bucket and then from those after it |
| `Searches.VisitKeeps` | src/node.rs:143-158 | taking in one reported node keeps the search invariant and grows the seen set or starts nothing |
| `Searches.Consume` | src/node.rs:143-158 | so does a whole batch; tasks are started only if a new identifier is seen |
| `Searches.GetNextResult` | src/utils.rs:76-83 | some pending task finishes and the others stay pending |
| `Searches.Round` | src/node.rs:128-159 | one round keeps the invariant and either sees a new identifier or leaves one task fewer |
| `Searches.FindNStartingAt` | src/node.rs:107-170 | the search ends for every network and completion order, with nothing pending, all answers consumed, and peers or the first k unmarked seen nodes as its result |
| `SearchReplies.ReportedExactlyWhenNamed` | src/node.rs:172-192 | the nodes reported are the starting nodes and those named by the replies of the network, and no others |
| `SearchReplies.NamedIsTakenIn` | src/node.rs:143-158 | every node that a reply names is seen, up to its address, or 17 seen nodes are nearer |
| `SearchReplies.MarkedExactlyWhen` | src/node.rs:131-192 | a node is marked if and only if its reply was none, of another kind, or peers in a search for nodes |
| `SearchReplies.FoundExactlyWhenReplied` | src/node.rs:172-192 | the peers found are those of the replies, in a search for peers only |
| `SearchReplies.TakenInExactlyWhen` | src/node.rs:143-151 | a reported node is taken in if and only if its identifier is new and at most 16 seen nodes are nearer |
| `SearchReplies.QueriedExactlyWhen` | src/node.rs:143-158 | a node was queried if and only if its identifier is valid and it was taken in at some report |
| `SearchResults.NearestIsUnique` | src/node.rs:163-168 | the reference `NearestOf` fixes every identifier of an answer and its place |
| `SearchResults.TopIsNearestReported` | src/node.rs:143-158 | at every point of the search the first 17 seen nodes are the 17 nearest identifiers ever reported |
| `SearchResults.QueriedOnce` | src/node.rs:143-158 | at the end each valid seen node, and no other, was queried exactly once; no identifier was queried twice; each was reported first |
| `SearchResults.AnswerIsNearestSeen` | src/node.rs:163-168 | the answer is the k nearest seen identifiers not marked unresponsive, in strictly increasing distance |
| `SearchResults.AnswerIsNearestReported` | src/node.rs:143-168 | if k of the first 17 are unmarked, or at most 16 were seen, it is the k nearest of all identifiers ever reported and not marked |
| `SearchResults.AnswerStartsNearest` | src/node.rs:143-168 | however many nodes failed, the answer begins with the nearest identifiers ever reported and not marked, as many as are unmarked among the first 17 |
| `SearchResults.NoPeersForNodes` | src/node.rs:172-192 | a search for nodes never collects a peer |
| `SearchResults.FindNNodesStartingAt` | src/node.rs:92-97 | the `unreachable!` is never reached, and the nodes returned are the nearest ones as above |
| `SearchResults.InAnswerExactlyWhen` | src/node.rs:163-168 | an unmarked seen node is in the answer if and only if fewer than k unmarked seen nodes are nearer |
| `SearchResults.InvalidIsReturned` | src/node.rs:151-168 | a seen node with an invalid identifier is never queried nor marked, and is in the answer if and only if fewer than k unmarked seen nodes are nearer |
| `SearchResults.InvalidNodeIsReturned` | src/node.rs:151-153 | every search from one starting node with an invalid identifier returns it unqueried |
| `Sweeps.FirstExists` | src/node_info.rs:121-138 | a non-empty queue has a least node |
| `Sweeps.PopFirst` | src/node.rs:270 | the least queued node is taken out |
| `Sweeps.EnterAllKeeps` | src/node.rs:250-265 | queueing reported nodes keeps the sweep invariant, and the queue grows only by nodes with identifiers never seen before |
| `Sweeps.IterateKeeps` | src/node.rs:284-309 | one round keeps the invariant, and sees a new identifier or leaves less to do |
| `Sweeps.LeftExactlyWhen` | src/node.rs:284-309 | when the loop ends, the queue is left with nodes if and only if a backfill that was under way stored a new one above its target after the last query was started |
| `SweepAnswers.NodesWithSamplesAreTakenIn` | src/node.rs:231-237 | nodes reported with samples are seen if they lie above the queried one |
| `SweepAnswers.NearestNodesAreTakenIn` | src/node.rs:238-244 | so are the nearest nodes of one that gives no samples |
| `SweepAnswers.NewIsQueued` | src/node.rs:250-265 | a reported node that is new waits or is in flight once the round is over |
| `SweepAnswers.NextIsLeast` | src/node.rs:267-276 | each answer starts one query as long as any node waits, and it goes to the least of them |
| `SweepAnswers.BeginsWithLeast` | src/node.rs:209-282 | the 200 least seeds, or all, are in flight at the start, and no seed is lost |
| `SweepAnswers.BackfillStartsExactlyWhen` | src/node.rs:288-304 | a backfill starts if and only if the head of the queue differs from the target within its first 18 bits and none is under way |
| `SweepAnswers.OnlyEmptyAnswersBackfill` | src/node.rs:288-307 | and only in a round whose answer names no node |
| `SweepAnswers.BackfillStoresExactly` | src/node.rs:298-303 | what a backfill stores is queued as if reported for its target, and nothing is stored at any other time |
| `SweepAnswers.BackfillsEndAfterStoring` | src/node.rs:293-303 | a backfill searches for one target until it stores its nodes, and is over exactly when it then ends, at once or later |
| `SweepRuns.AddToSendQueue` | src/node.rs:250-265 | the loop over reported nodes does what `EnterAll` says |
| `SweepRuns.HandleAnswer` | src/node.rs:284-309 | one answer is handled as `Handled` says |
| `SweepRuns.InfohashSweep` | src/node.rs:205-310 | the sweep ends whatever the network answers, with no query pending, in a state of some run of the environment's choices |
| `SweepRuns.EntersOnce` | src/node.rs:250-265 | no node enters the queue twice; reported ones have new identifiers strictly above their target; at most 200 queries are in flight |
| `SweepRuns.QueriedExactlyOnce` | src/node.rs:205-310 | each node that entered is waiting, in flight or queried, exactly one of these and once; no other node is queried |
| `SweepRuns.LeftInQueueExactlyWhen` | src/node.rs:205-310 | a finished sweep, over all its runs, leaves nodes unqueried if and only if its last round ended with such a backfill |
| `SweepRuns.NothingLeftWithoutBackfill` | src/node.rs:284-309 | if no backfill was started, a finished sweep has queried every node that ever entered |
| `SweepRuns.SamplesAreForwarded` | src/node.rs:285-287 | every sample of every answer is forwarded, in order of the answers |
| `SweepRuns.LateBackfillIsLost` | src/node.rs:298-303 | from any state with a backfill under way the loop can end before it stores, leaving its nodes queued for ever |
| `SweepRuns.SweepCanLeaveNodes` | src/node.rs:205-310 | 201 seeds and a schedule for which the sweep ends with a non-empty queue |
| `BigEndian.IdBytes` | src/u160.rs:77-90 | the 20 bytes of an identifier spell its number, and bytes and identifiers determine each other |
| `Codecs.CopyFromSlice` | src/node_info.rs:28-34 | copying into a buffer changes exactly the target range |
| `Codecs.DecodedIdIsValue` | src/messenger/message/kmsg/serde_extra.rs:30-42 | exactly the byte strings of at most 20 bytes decode, each to the identifier with their big-endian value |
| `Codecs.Ip4ToBytes` | src/node_info.rs:26-36 | the buffer is filled with the compact 26-byte record |
| `Codecs.Ip4FromBytes` | src/node_info.rs:38-49 | the node is read back from the buffer's bytes |
| `Codecs.Ip4RoundTrip` | src/node_info.rs:26-49 | IPv4 nodes and 26-byte records determine each other |
| `Codecs.ListsRoundTrip` | src/messenger/message/kmsg/wrappers.rs:8-81 | decoding an encoded list of nodes or info hashes returns it; encoding a decoded byte string returns its longest whole-record prefix |
| `Codecs.SerializeWrapper` | src/messenger/message/kmsg/wrappers.rs:88-102 | the appended bytes are the address bytes, or none |
| `Codecs.WrapperRoundTrip` | src/messenger/message/kmsg/wrappers.rs:88-137 | optional addresses survive encoding; byte strings survive decoding if and only if they have 0, 6 or 18 bytes |
| `Codecs.SerializeNode` | src/node_info.rs:70-84 | the appended bytes are the node's bytes |
| `Codecs.NodeRoundTrip` | src/node_info.rs:70-119 | nodes of both families survive encoding; exactly 26 and 38 bytes decode, each to the node with those bytes |
| `Codecs.NodeLayout` | src/node_info.rs:70-84 | twenty bytes of the identifier, the octets in order, the port with its high byte first |
| `Codecs.WrapperLayout` | src/messenger/message/kmsg/wrappers.rs:88-102 | no bytes, or octets and port in the same order |
| `Codecs.NodeListLayout` | src/messenger/message/kmsg/wrappers.rs:8-41 | a list of nodes is written in order, 26 bytes each |
| `Codecs.HashListLayout` | src/messenger/message/kmsg/wrappers.rs:48-81 | a list of info hashes is written in order, 20 bytes each |
| `NodeIds.ChecksumIsBep42` | src/u160.rs:21-25 | the checksum computed on masked and shifted words is the one BEP 42 defines octet by octet, for both address families |
| `NodeIds.DerivedIsValid` | src/u160.rs:16-37 | an identifier derived from an address is valid for it, for every checksum function and all random bits |
| `NodeIds.ValidIffDerived` | src/u160.rs:16-37 | an identifier is valid for an address if and only if that address can derive it |
| `NodeIds.ValidOnBits` | src/u160.rs:16-37 | BEP 42 on bits: valid if and only if the first 21 bits are those of the checksum over the masked address and the number in the lowest three bits |
| `Tokens.ApplyKeyStream` | src/node/token.rs:32 | the buffer is xored in place with the key stream |
| `Tokens.TokenGenerator.Generate` | src/node/token.rs:18-37 | the 20 bytes of the token of this address, time and nonce |
| `Tokens.TokenGenerator.Validate` | src/node/token.rs:39-65 | the test as `Accepted` says, with the overflow of the time sum explicit |
| `Tokens.TokenWindow` | src/node/token.rs:18-65 | a token made at t is valid for its address at t' exactly when t <= t' < t + 120; the outcomes in the last 120 seconds of the 64-bit clock are given exactly |
| `Tokens.ValidIsGenerated` | src/node/token.rs:39-65 | whatever is accepted is the token that generation makes at some time of the last 120 seconds |
| `Tokens.TokenBindsAddress` | src/node/token.rs:18-65 | a token of one address is refused for every other whose checksum differs, and otherwise has the same window |
| `Tokens.AcceptedExactlyWhenMade` | src/node/token.rs:39-65 | accepted if and only if the bytes are a checksum over address, time and nonce bytes, the nonce bytes, and the time of the last 120 seconds under their key stream |
| `Tokens.OverflowsExactlyWhenMade` | src/node/token.rs:61-64 | the time sum overflows, and panics with overflow checks, exactly for such tokens made in the last 120 seconds of the clock |
| `Servers.Server.constructor` | src/node.rs:47-59 | the server opens whatever well-formed store an earlier run left |
| `Servers.Server.HandleAnnounce` | src/node.rs:335-358 | refused with the code's errors and no change, or the peer is stored |
| `Servers.Server.HandleGetPeers` | src/node.rs:360-382 | answers the stored peers, or the nearest nodes if there is no list, with a fresh token; the inner `unwrap` never fails |
| `Servers.PeerStored` | src/node.rs:347-355 | the peer is appended to its list unless present; no list gets a duplicate and no other list changes |
| `Servers.AcceptedExactlyWhen` | src/node.rs:335-343 | an announce is accepted if and only if its token was made for the sender's address less than 120 seconds ago and the sender's identifier derives from it |
| `Servers.AnsweredExactly` | src/node.rs:335-343 | which answer each announce gets: acknowledged, protocol error, invalid identifier, or the overflow |
| `Servers.PeersAccumulate` | src/node.rs:335-358 | no run of announces stores a duplicate or forgets a peer |
| `Servers.AnnouncedIsServed` | src/node.rs:335-382 | a derived identifier with a fresh token is accepted, and its peer is in every later answer, which repeats none |
| `Messages.MessageRoundTrip` | src/messenger/message/message_impl.rs:75-235 | every message comes back with its method, kind or error, transaction, read-only flag and sender, if and only if it is not a data answer without a value, which comes back as a plain acknowledgement |
| `Messages.ReceivedSurvives` | src/messenger/message/message_impl.rs:75-235 | whatever record was accepted, the message it became survives being sent and received again |
| `MessageRecords.ReceivedExactlyWhenComplete` | src/messenger/message/message_impl.rs:148-234 | a record is a message if and only if it holds what its type and method require; the error of every other record |
| `MessageRecords.AnnouncedPort` | src/messenger/message/message_impl.rs:172-180 | an announce takes the port of its packet if the record says so or names none, else the port that it names |
| `MessageRecords.UnknownMethodSearches` | src/messenger/message/message_impl.rs:185-194 | an unknown method is a search for the info hash, else for the target |
| `MessageRecords.KindByFields` | src/messenger/message/message_impl.rs:207-226 | peers, a value, samples, nodes: the first that is there is the kind of an answer |
| `MessageRecords.KindHolds` | src/messenger/message/message_impl.rs:207-226 | with the fields of the record, and zero for missing counts |
| `MessageRecords.PeersInOrder` | src/messenger/message/message_impl.rs:207-209 | peers stay in order, entries without an address are left out |
| `MessageRecords.BaseOfRecord` | src/messenger/message/message_impl.rs:148-156 | sender, requestor, read-only flag and client of every received message |
| `MessageRecords.QueryIsSentAs` | src/messenger/message/message_impl.rs:75-117 | a query is sent under the name of its method with its sender and the arguments of that method only |
| `MessageRecords.AnswerIsSentAs` | src/messenger/message/message_impl.rs:118-142 | an answer is sent with the address of the requestor and the fields of its kind only |
| `MessageRecords.ErrorIsSentAs` | src/messenger/message/message_impl.rs:143-145 | an error is sent with its code and text and an empty address |

## Left out

- UDP sockets, the receive loop, timers, retries, semaphores and task spawning: I/O. In particular the matching of answers to pending queries in the messenger service is not modelled.
- The bencode reader and writer are in a library that is not part of this model: the saved table is a list of elements, and KRPC messages are records. Bytes are modelled where this code builds them.
- CRC32C, ChaCha20 and the random sources are arbitrary; nothing cryptographic is claimed. How often a token of one address passes for another, or a random identifier for an address, depends on them.
- The sled store is a map from info hash to a list of encoded addresses, and its failures (server errors) are left out.
- What a search does to the routing table on the side (storing those that answer, banning those that do not) is not part of `Searches`; `Routers` and `LockSteps` cover those calls under any order.
- The dispatch of incoming queries and the random choice of samples in `handle_sample` would only add easy members.
- Statistics, logging, display, the table of client names, hex and base64 text, command line and parameters, and the unused `prune` helper.
- IPv6 scope and flow fields: an address is 4 or 16 bytes and a port.
- LockSteps: a lock is free or held by a split; fairness among waiting calls, and a vector locked for reading while another step reads it, are below this model. A call that panics releases its locks.
- Codecs.Ip4ToBytes: takes IPv4 nodes only; the program panics on others.
- Messages.MessageRoundTrip: the version field is never sent, so the client of a message is not part of it.
