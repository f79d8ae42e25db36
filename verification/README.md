# Kokkos containers and algorithms: a verified model

This project models the concurrent and algorithmic core of the Kokkos container and algorithm headers in
Dafny and proves what those headers promise: the lock-free hash map over an atomic bitset, the binning sort,
the xorshift generator with its pool, the duplicated scatter view, the dual view with the vector built on it,
and the chunked dynamic view.

How the model reads:

* **Protocols are state machines.** Each volatile load, atomic update, key or value write and
  compare-exchange is one step of one thread. A schedule names whose step comes next, and a theorem quantifies
  over all schedules and all numbers of threads. Steps are sequentially consistent; in `insert` the fence at
  `containers/src/Kokkos_UnorderedMap.hpp:576` is what lets a reader rely on key and value being written before
  the entry is linked.
* **Code that updates in place is imperative.** `Bitset`, the sorter, the generator, the scatter view, the dual
  view, the vector and the dynamic view are classes whose methods are proved against functions on values;
  theorems about whole runs are lemmas about those functions, or methods that perform the run.
* **Widths that matter are explicit.** Bitset words are 32-bit vectors, generator states 64-bit vectors, and the
  dual view counters, the map capacity and the block count wrap where the original wraps. Floating point keys
  are reals.

| file | component |
|---|---|
| `Words.dfy`, `Bitset.dfy`, `BitsetSearch.dfy`, `BitsetClaim.dfy` | bit scans, `Bitset`, the concurrent find-then-set loop |
| `UnorderedMap.dfy` | `insert` as a transition system |
| `InsertInvariant.dfy`, `InsertSteps.dfy` | the step invariant and its preservation |
| `InsertTheorems.dfy`, `InsertRuns.dfy`, `InsertTermination.dfy`, `InsertResults.dfy` | linearizability, conservation, lookups, termination, result fields and flags |
| `InsertSearch.dfy`, `InsertAlone.dfy`, `Rehash.dfy`, `RehashParallel.dfy`, `RehashExample.dfy` | `insert` without contention, `rehash`, its parallel replay, and a run it does not preserve |
| `BinSort.dfy`, `BinPlacement.dfy`, `BinBubble.dfy`, `BinInterleave.dfy`, `BinSorter.dfy` | the passes of `BinSort` and the object |
| `KokkosSort.dfy`, `BinOp3D.dfy` | `Kokkos::sort`, binning operators, rows with payload |
| `Xorshift.dfy`, `XorshiftBits.dfy`, `Random.dfy`, `RandomPool.dfy` | the generator, ranged draws, the pool |
| `ScatterView.dfy` | the duplicated scatter view |
| `DualView.dfy`, `Vector.dfy`, `DynamicView.dfy` | the host-side containers |
| `Counting.dfy`, `Wrappers.dfy` | counting arguments and a datatype shared by the components |

Where the code does not do what its comments, names or callers suggest, the model follows the code, and the
members named here state what it does and exactly when that is what one would expect:

* The reverse bit scan starts two positions below the hint (`Bitsets.ReverseIsFirst`). It returns the first
  candidate at or below the hint if and only if there is no candidate at the hint and one below it, or none
  elsewhere (`Bitsets.ReverseAsNamed`, with a failing word in `Bitsets.ReverseSkipsHint`).
* A bitset whose size is within 31 of 2^32 has no blocks at all (`Bitsets.Bitset.constructor`).
* `calculate_capacity` covers its hint if and only if the scaled hint is at most 2^32 - 128
  (`Rehash.CapacityCovers`).
* `rehash` replays every claimed entry, those abandoned by failed inserts included. It preserves the map if and
  only if every abandoned entry has a key of the map whose lowest claimed index stores the map's value, and in
  particular if no insert has failed (`Rehash.RehashTo`); otherwise the value of a failed insert can replace that
  of a successful one (`RehashExample.FailedInsertWins`).
* `create_permute_vector` is documented as callable again if keys changed, but does not clear its counters; a
  second call stays inside the order array if and only if none of its keys falls into a later bin than any key
  of the first call (`BinSort.SecondCallInBounds`), with unchanged keys if and only if all share one bin
  (`BinSort.RepeatedCallInBounds`, with a failing input in `BinSort.SecondCallStrays`).
* The in-bin comparison of `BinOp3D` sorts rows of one cell in descending order (`BinOp3D.SortRows`).
* `BinSort::sort` reads at the start of the values range but writes at the start of the key range
  (`BinSorter.Sorter.Sort`). Over all arrays it reorders the values range if and only if both ranges start at the
  same place or are empty (`BinSorter.RangesMustAgree`, with a failing input in `BinSorter.WrongPlaceExample`).
* A ranged draw ends if and only if one of the first `MAX_URAND64 % range + 1` draws is accepted
  (`Random.RejectedForever`).
* The probe of the random pool stays inside the lock array if and only if a block has no more threads than there
  are locks (`RandomPool.BlocksInRange`).
* A dual view counter at 2^32 - 1 wraps, and then, and only then, a modification is lost (`DualView.MarkIsSeen`,
  `DualView.MarksAreLost`).
* The chunk size field of a dynamic view is undefined exactly when chunks hold one element
  (`DynamicView.ChunkSizeIsExact`), and the final destruction frees chunks with that number of bytes, which is what
  was allocated if and only if elements are one byte and chunks hold more than one (`DynamicView.DestroySizeIsRight`).

## Model

| member | source | states |
|---|---|---|
| Bitsets.SetBitAdds | containers/src/Kokkos_Bitset.hpp:159-167 | `set(i)` adds exactly `i` to the set the words stand for, keeps the bits past the size zero, and reports success exactly if the bit was clear |
| Bitsets.ResetBitRemoves | containers/src/Kokkos_Bitset.hpp:172-180 | `reset(i)` removes exactly `i`, keeps the tail zero, and reports success exactly if the bit was set |
| Bitsets.FoundIsRight | containers/src/Kokkos_Bitset.hpp:205-277 | a search succeeds exactly if the hinted block has an in-range bit with the wanted value; a found index is in range, in that block and has the value; otherwise the new hint is in the neighbouring block |
| BitsetSearch.SearchResult | containers/src/Kokkos_Bitset.hpp:205-277 | in plain index arithmetic: a search succeeds exactly if its block has an index with the wanted value and returns the nearest one, upwards from the hint for even directions and downwards from two below it for odd ones; otherwise the new hint is in block `(blk + 1) % n` for directions 0 and 1 and `(blk + n - 1) % n` for 2 and 3, at the same offset |
| BitsetSearch.NextBlockExample | containers/src/Kokkos_Bitset.hpp:269-277 | with a full first block of four, the search from 0 moves to index 32 by default and to 96 backwards |
| Bitsets.FoundIsFirst | containers/src/Kokkos_Bitset.hpp:254-266 | no index that the scan passes, cyclically from the hint, before the returned one has the wanted value, for both scan directions |
| Bitsets.ForwardIsFirst | containers/src/Kokkos_Bitset.hpp:254-266 | the forward scan of a word returns the cyclically first set bit at or after the offset |
| Bitsets.ReverseIsFirst | containers/src/Kokkos_Bitset.hpp:254-266 | the reverse scan of a word returns the cyclically first set bit downwards from two below the offset |
| Bitsets.ReverseAsNamed | containers/src/Kokkos_Bitset.hpp:254-266 | the reverse scan returns the first candidate at or below the hint if and only if no candidate is at the hint or one below it, or none is elsewhere |
| Bitsets.ReverseSkipsHint | containers/src/Kokkos_Bitset.hpp:254-266 | with bits 5 and 0 set, the reverse scan from 5 returns 0 |
| Bitsets.SweepVisits | containers/src/Kokkos_Bitset.hpp:269-277 | as many hint moves as there are blocks visit every block, in either direction |
| Bitsets.SweepIsComplete | containers/src/Kokkos_Bitset.hpp:195-198 | `max_hint()` consecutive failed searches mean that no index has the wanted value |
| Bitsets.Count | containers/src/Kokkos_Bitset.hpp:128-131 | the bits counted word by word are the cardinality of the set |
| Bitsets.NewBitsAreClear | containers/src/Kokkos_Bitset.hpp:97-104 | the constructed words are the empty set with a correct tail mask |
| Bitsets.Bitset.constructor | containers/src/Kokkos_Bitset.hpp:97-104 | the mask loop and the 32-bit block count give a valid empty bitset for every size up to 2^32 - 32 and no blocks above |
| Bitsets.Bitset.Set | containers/src/Kokkos_Bitset.hpp:159-167 | the in-place update adds `i` and reports whether it was new; out of range nothing happens |
| Bitsets.Bitset.Reset | containers/src/Kokkos_Bitset.hpp:172-180 | the in-place update removes `i` and reports whether it was there |
| Bitsets.Bitset.Test | containers/src/Kokkos_Bitset.hpp:185-192 | `test` is membership |
| Bitsets.Bitset.SetAll | containers/src/Kokkos_Bitset.hpp:135-147 | `set()` makes the set all indices below the size; bits past it stay zero |
| Bitsets.Bitset.Clear | containers/src/Kokkos_Bitset.hpp:149-155 | `reset()` and `clear()` make the set empty |
| BitsetClaim.NeverExhausted | containers/unit_tests/TestBitset.hpp:155-178 | with at most `size()` workers, no worker uses up its `max_hint()` attempts |
| BitsetClaim.EveryScheduleIsSafe | containers/unit_tests/TestBitset.hpp:155-178 | under every interleaving of the find-then-set (or find-then-reset) loops, winners obtain distinct indices, flipped bits are exactly the winners' bits, and nobody gives up |
| BitsetClaim.FirstClaim | containers/unit_tests/TestBitset.hpp:155-178 | a worker that goes first wins its hint if its number is even, and the nearest index downwards from two below the hint if it is odd |
| BitsetClaim.EveryScheduleFinishes | containers/unit_tests/TestBitset.hpp:155-178 | no schedule of these loops runs forever |
| InsertSteps.StepKeeps | containers/src/Kokkos_UnorderedMap.hpp:488-594 | every atomic step of every `insert` keeps the invariant: lists in memory are as described, entries are owned once, every call stands at the end of a prefix without its key |
| InsertInvariant.CallIsSafe | containers/src/Kokkos_UnorderedMap.hpp:512-594 | the accesses of the next step of every call are in range |
| InsertRuns.EveryReachableState | containers/src/Kokkos_UnorderedMap.hpp:488-594 | in every state reachable from an empty table: acyclic disjoint lists, listed bits set, keys in their buckets and never twice, unlisted entries without successor, claimed indices listed or held by one call, and "Unable to free existing" never printed |
| InsertTheorems.StepIsAtomic | containers/src/Kokkos_UnorderedMap.hpp:516-592 | a step changes the abstract map only if it is the successful append of a call whose key was absent, and a call returns by a step at which its result is right for the map |
| InsertRuns.Linearizable | containers/src/Kokkos_UnorderedMap.hpp:516-592 | over every interleaving, the returned calls in the order of their last steps are a sequential insert-if-absent run with the same results and the same final map |
| InsertRuns.ConcurrentInserts | containers/src/Kokkos_UnorderedMap.hpp:473-597 | from an empty table, under every interleaving of any number of calls: the returned calls are a sequential insert-if-absent run into an empty map, calls for one key that did not fail agree on its index, and at most one succeeded |
| InsertRuns.ResultIsStored | containers/src/Kokkos_UnorderedMap.hpp:545-592 | a returned index is the entry of the key; the winner's value is stored there |
| InsertRuns.CallsAgree | containers/src/Kokkos_UnorderedMap.hpp:545-592 | calls for one key that did not fail return one index, and at most one of them reports success |
| InsertRuns.EntriesStay | containers/src/Kokkos_UnorderedMap.hpp:582-592 | a linked entry keeps its index, key and value through the rest of every run |
| InsertRuns.ClaimedBits | containers/src/Kokkos_UnorderedMap.hpp:536-592 | claimed bits are the listed and the held entries, each once; an entry still held by a returned call was abandoned after the failed flag went up |
| InsertRuns.Size | containers/src/Kokkos_UnorderedMap.hpp:399-406 | `size()` recounts the claimed bits, which at quiescence without failures is the number of distinct keys |
| InsertRuns.Find | containers/src/Kokkos_UnorderedMap.hpp:626-639 | `find` returns the entry of the key exactly if the key is in the map |
| InsertRuns.Exists | containers/src/Kokkos_UnorderedMap.hpp:646-646 | `exists` is membership in the map |
| InsertResults.EveryResultReported | containers/src/Kokkos_UnorderedMap.hpp:525-592 | in every interleaving, `list_position` is the number of entries the call passed, saturated at 2^29 - 1, none of which holds its key; a returned index is the next entry of the list; `freed_existing` holds exactly if the key was found after an index had been claimed |
| InsertResults.FreedIsGivenBack | containers/src/Kokkos_UnorderedMap.hpp:535-547 | a call ends with `freed_existing` exactly if its last step clears a bit, and that is the one it had claimed |
| InsertResults.FirstHintIs | containers/src/Kokkos_UnorderedMap.hpp:488-496 | the first hint is the bucket number scaled to the capacity and rounded down, and the walk starts at that bucket |
| InsertResults.InsertsAreNoticed | containers/src/Kokkos_UnorderedMap.hpp:482-484 | after every run in which a call has done something, `size()` recounts |
| InsertResults.FailuresAreFlagged | containers/src/Kokkos_UnorderedMap.hpp:561-580 | in every interleaving the failed flag is up exactly if an insert has returned without an index |
| InsertTermination.StepProgresses | containers/src/Kokkos_UnorderedMap.hpp:498-594 | every step of an unfinished call lowers a lexicographic measure in which lost claims and appends are charged to other calls |
| InsertTermination.EveryScheduleFinishes | containers/src/Kokkos_UnorderedMap.hpp:498-594 | no schedule of finitely many inserts runs forever |
| InsertTermination.EveryPhaseFinishes | containers/src/Kokkos_UnorderedMap.hpp:498-594 | any number of calls started on an empty table all return, whatever the schedule |
| InsertAlone.AloneFails | containers/src/Kokkos_UnorderedMap.hpp:554-577 | an unbounded insert running alone that gives up has seen every index claimed |
| InsertSearch.SearchedStep | containers/src/Kokkos_UnorderedMap.hpp:512-577 | a lone call stands as many blocks ahead of its start as it has failed attempts, all of them full |
| InsertSearch.FailureIsFull | containers/src/Kokkos_UnorderedMap.hpp:500-505 | with at most 32 blocks, or unbounded, a lone insert fails only on a completely claimed table |
| InsertAlone.InsertSolo | containers/src/Kokkos_UnorderedMap.hpp:473-597 | run alone, `insert` fails at once without capacity or while erasing; otherwise it reports an existing key, or adds the pair with an index of the first block that is not full, or fails when all blocks it may sweep are full, 32 for a bounded map of more than 32 blocks and all of them otherwise; the sweep starts at the last entry of the list or the scaled bucket, in the direction the bucket gives |
| Rehash.CapacityCovers | containers/src/Kokkos_UnorderedMap.hpp:795-802 | the computed capacity covers the hint if and only if the scaled hint is at most 2^32 - 128, and is then the least multiple of 128 at or above seven sixths of the hint, 128 for hint 0 |
| Rehash.CapacityFits | containers/src/Kokkos_UnorderedMap.hpp:795-802 | for every hint, overflowing ones included, the capacity is a multiple of 128 that a bitset can hold, the greatest up to what the 32-bit arithmetic keeps |
| Rehash.ReplayAll | containers/src/impl/Kokkos_UnorderedMap_impl.hpp:74-82 | replaying all claimed entries in index order into a table with as many indices never fails, and the new map has their keys, each with the value at its lowest claimed index |
| Rehash.LowestBelow | containers/src/impl/Kokkos_UnorderedMap_impl.hpp:79-82 | the key of every claimed entry has a lowest claimed index, at or below that entry |
| Rehash.CopyIsExact | containers/src/impl/Kokkos_UnorderedMap_impl.hpp:79-82 | such a copy equals the map if and only if every abandoned entry is harmless |
| Rehash.NothingAbandoned | containers/src/Kokkos_UnorderedMap.hpp:578-580 | at quiescence without a failed insert no entry is abandoned |
| Rehash.RehashDefault | containers/src/Kokkos_UnorderedMap.hpp:366-369 | `rehash(requested)` leaves the map bounded exactly if it was empty |
| Rehash.RehashTo | containers/src/Kokkos_UnorderedMap.hpp:371-390 | `rehash` allocates the computed capacity and the given number of buckets; if that covers `size()`, no replayed insert fails, and the map is preserved if and only if the abandoned entries are harmless, in particular if no insert has failed |
| RehashParallel.ParallelReplay | containers/src/impl/Kokkos_UnorderedMap_impl.hpp:74-82 | under every interleaving of the replayed inserts, every pair of the new map is that of a claimed entry, and all their keys are there if no insert failed |
| RehashParallel.ParallelRehash | containers/src/impl/Kokkos_UnorderedMap_impl.hpp:74-82 | under every interleaving, replaying a table without abandoned entries gives a map contained in the old one, and equal to it if and only if no replayed insert failed |
| RehashExample.FailedInsertWins | containers/src/impl/Kokkos_UnorderedMap_impl.hpp:79-82 | a reachable state in which the map holds the value of a successful insert, while every replay in index order stores that of a failed one |
| BinSort.CountPass | algorithms/src/Kokkos_Sort.hpp:351-355 | the atomic increments, in any order, add the histogram of the bins to the counters |
| BinSort.OffsetScan | algorithms/src/Kokkos_Sort.hpp:357-364 | the scan writes the exclusive prefix sums, for every way of cutting the range into chunks |
| BinSort.PrefixIsOffset | algorithms/src/Kokkos_Sort.hpp:357-364 | the prefix sums of the histogram are the numbers of items in earlier bins |
| BinSort.SecondCallInBounds | algorithms/src/Kokkos_Sort.hpp:239-254 | with counters left from a first call the offsets are sums of both, and all stores of the second call stay in range, at the right offsets, if and only if none of its keys falls into a later bin than any key of the first |
| BinSort.RepeatedCallInBounds | algorithms/src/Kokkos_Sort.hpp:239-254 | with unchanged keys that is if and only if all keys share one bin |
| BinSort.SecondCallStrays | algorithms/src/Kokkos_Sort.hpp:239-254 | one key that moves from bin 0 to bin 1 is stored behind the end of the order |
| BinPlacement.BinningPass | algorithms/src/Kokkos_Sort.hpp:366-373 | for every interleaving of ticket draws and stores, the order is a permutation of the key range, the slice of every bin holds indices of that bin, and the counters end as the histogram |
| BinPlacement.TargetsDiffer | algorithms/src/Kokkos_Sort.hpp:366-373 | no two items ever store to the same position |
| BinBubble.Sweep | algorithms/src/Kokkos_Sort.hpp:381-396 | one sweep rearranges its range, leaves an element last that no other is after, and finds the range ascending if it exchanged nothing |
| BinBubble.SortSlice | algorithms/src/Kokkos_Sort.hpp:375-398 | the in-bin pass ends, although it exchanges equal keys, with its slice sorted and rearranged and everything else untouched |
| BinInterleave.StepKeeps | algorithms/src/Kokkos_Sort.hpp:375-398 | every load or store of the in-bin pass keeps its invariant, also between the two stores of an exchange, and touches its own slice only |
| BinInterleave.StepWorks | algorithms/src/Kokkos_Sort.hpp:381-397 | every step of an unfinished in-bin pass lowers a measure |
| BinSorter.OneBinSteps | algorithms/src/Kokkos_Sort.hpp:256-261 | a step of one bin leaves the passes of all others where they are |
| BinSorter.Sorter.CreatePermuteVector | algorithms/src/Kokkos_Sort.hpp:241-262 | for every interleaving of all four passes on a new object: exact counts and offsets, a permutation grouped by bin, and slices sorted by key when asked for |
| BinSorter.Sorter.SortBins | algorithms/src/Kokkos_Sort.hpp:256-261 | the in-bin passes of all bins, their loads and stores interleaved in any order, end with every slice sorted and keep the permutation and the grouping |
| BinSorter.Sorter.Sort | algorithms/src/Kokkos_Sort.hpp:266-331 | refuses a range of another length; otherwise position `p` of the key range gets the value that the order names, and nothing outside changes |
| BinSorter.RangesMustAgree | algorithms/src/Kokkos_Sort.hpp:308-328 | over all arrays, `sort` reorders the values range and nothing else if and only if it starts where the key range starts or is empty |
| BinSorter.WrongPlaceExample | algorithms/src/Kokkos_Sort.hpp:308-328 | a value sorted by an object for another place overwrites that place |
| KokkosSort.SliceIsExact | algorithms/src/Kokkos_Sort.hpp:366-373 | every index has one position, which lies in the slice of its bin, and a slice holds nothing else |
| KokkosSort.PermutedContents | algorithms/src/Kokkos_Sort.hpp:308-328 | values read through the order are the same multiset |
| KokkosSort.Bins1D | algorithms/src/Kokkos_Sort.hpp:416-433 | keys between minimum and maximum get a bin in range, monotone in the key |
| KokkosSort.Bin1DIsInterval | algorithms/src/Kokkos_Sort.hpp:416-433 | a key at or above the minimum is in bin `c` if and only if it lies in the `c`-th of the equal intervals between minimum and maximum; there is one bin more than intervals |
| KokkosSort.TruncLaw | algorithms/src/Kokkos_Sort.hpp:424-427 | the conversion to an integer drops the fraction, towards zero |
| KokkosSort.FindExtent | algorithms/src/Kokkos_Sort.hpp:512-526 | the reduction yields minimum and maximum for every way of cutting the range |
| KokkosSort.SortRange | algorithms/src/Kokkos_Sort.hpp:549-568 | `sort(view, begin, end)`, for every interleaving: the range is ascending, has the same multiset, and nothing outside changes |
| BinOp3D.CellInGrid | algorithms/src/Kokkos_Sort.hpp:451-473 | keys in the half-open box fall into a cell of the grid |
| BinOp3D.Bins3D | algorithms/src/Kokkos_Sort.hpp:467-476 | bins are in range, equal exactly for equal cells, and ordered like the cells lexicographically |
| BinOp3D.BinOfCell | algorithms/src/Kokkos_Sort.hpp:467-476 | a row of the box that lies in the intervals `i`, `j`, `k` of its three dimensions has bin `(i * ny + j) * nz + k` |
| BinOp3D.OneCell | algorithms/src/Kokkos_Sort.hpp:451-473 | every row of the half-open box lies in exactly one cell, and that is in the grid |
| BinOp3D.CellExample | algorithms/src/Kokkos_Sort.hpp:467-473 | the bins of three rows of the unit box cut into eight cells |
| BinOp3D.PairsStay | algorithms/unit_tests/TestSort.hpp:320-343 | arrays sorted by one permutation keep their pairing |
| BinOp3D.SortRows | algorithms/src/Kokkos_Sort.hpp:441-495 | rows end in lexicographic order of the intervals they lie in, those of one cell in descending order of their coordinates when sorted within bins, each with its payload, for every interleaving |
| Xorshift.StepIsBijective | algorithms/src/Kokkos_Random.hpp:712-716 | the xorshift step has an inverse |
| XorshiftBits.StepBits | algorithms/src/Kokkos_Random.hpp:712-716 | bit by bit through two intermediate words: exclusive-or with the bit 12 above, then 25 below, then 27 above |
| Xorshift.NonzeroStays | algorithms/src/Kokkos_Random.hpp:712-716 | the step yields zero from zero only |
| Xorshift.WordOfValue | algorithms/src/Kokkos_Random.hpp:683-686 | 64-bit states and the numbers below 2^64 correspond one to one |
| Random.DrawFormula | algorithms/src/Kokkos_Random.hpp:717-717 | a draw is the number of the next state times 2685821657736338717, less one, modulo 2^64 |
| XorshiftBits.DrawToMultiplier | algorithms/src/Kokkos_Random.hpp:712-718 | the draw from the state that steps to 1 |
| XorshiftBits.DrawFromZeroSeed | algorithms/src/Kokkos_Random.hpp:697-718 | the first draw of a generator with seed 0 |
| Random.DrawIsBijective | algorithms/src/Kokkos_Random.hpp:712-718 | `urand64` maps the nonzero states one to one onto `[0, 2^64 - 2]` |
| Random.ResiduesAreEven | algorithms/src/Kokkos_Random.hpp:733-739 | for every range, every residue has exactly `MAX_URAND64 / range` accepted states |
| Random.Generator.constructor | algorithms/src/Kokkos_Random.hpp:697-699 | a generator holds its seed, or 1318319 for the seed zero |
| Random.Generator.Urand64 | algorithms/src/Kokkos_Random.hpp:712-718 | one draw advances the state once and returns the number of the new state times the multiplier, less one, modulo 2^64, which is less than 2^64 - 1 |
| Random.RejectedForever | algorithms/src/Kokkos_Random.hpp:733-739 | if `MAX_URAND64 % range + 1` draws in a row are rejected, all further ones are |
| Random.Generator.Urand64Below | algorithms/src/Kokkos_Random.hpp:733-739 | the result is the residue of the first accepted draw, all earlier ones were rejected, and the state advanced once per draw; there is no result if and only if every draw is rejected, so that the original loops forever |
| Random.Generator.Urand64Between | algorithms/src/Kokkos_Random.hpp:741-744 | the result is `start` plus the residue of the last draw and lies in `[start, end)` |
| RandomPool.EveryRunIsSafe | algorithms/src/Kokkos_Random.hpp:624-638 | in every run of any number of threads: no two live generators on one slot, no access outside the locks, the draws of a slot are those of one generator with its seed, and an unlocked slot holds the state after all of them |
| RandomPool.StepKeeps | algorithms/src/Kokkos_Random.hpp:894-910 | claiming, loading, drawing, storing and unlocking keep the pool invariant |
| RandomPool.DrawEvent | algorithms/src/Kokkos_Random.hpp:712-718 | a draw of a live generator appends one number to the record of its slot, advances its state once, and changes nothing else |
| RandomPool.OneRound | algorithms/src/Kokkos_Random.hpp:893-910 | a whole round of a thread whose first slot is free: `n` draws from the state of that slot, zero replaced, the state after them left there, and the slot unlocked again |
| RandomPool.LoneProbeStops | algorithms/src/Kokkos_Random.hpp:625-638 | a probe running alone stops if and only if a slot in strides above its first slot or above its offset is free, and then within two sweeps |
| RandomPool.BlocksInRange | algorithms/src/Kokkos_Random.hpp:625-638 | all probes of a block stay in range if and only if the block size is at most the number of locks |
| ScatterView.PhaseAdds | containers/src/Kokkos_ScatterView.hpp:1215-1254 | over a phase of interleaved acquire, load, store, move and release steps, every column of duplicates grows by exactly what was requested for it |
| ScatterView.LegalPlan | containers/src/Kokkos_ScatterView.hpp:1215-1254 | a phase that keeps the token discipline performs exactly the updates its load events name, in their order, and leaves none under way |
| ScatterView.LegalPhaseAdds | containers/src/Kokkos_ScatterView.hpp:1215-1254 | over a legal phase, in any interleaving, every column grows by exactly the updates the events ask for |
| ScatterView.OneUpdate | containers/src/Kokkos_ScatterView.hpp:1215-1254 | an update through token 1 ends up in duplicate 1 |
| ScatterView.SamePlan | containers/src/Kokkos_ScatterView.hpp:1225-1227 | which updates are made does not depend on the data |
| ScatterView.Duplicated.Scatter | containers/src/Kokkos_ScatterView.hpp:1215-1254 | the in-place phase performs that plan, for a legal phase the updates its events name |
| ScatterView.Duplicated.ContributeInto | containers/src/Kokkos_ScatterView.hpp:935-951 | the destination grows by the sum over the duplicates, leaving out duplicate 0 when the destination is that duplicate |
| ScatterView.Duplicated.ResetExcept | containers/src/Kokkos_ScatterView.hpp:958-968 | all duplicates become zero, except duplicate 0 when it is the destination |
| ScatterView.Duplicated.Rounds | containers/src/Kokkos_ScatterView.hpp:1113-1152 | over any number of scatter, contribute and reset rounds the destination ends as its start value plus every requested update once, aliased or not; in a legal phase these are the updates its load events name |
| DualView.TestsAgree | containers/src/Kokkos_DualView.hpp:636-662 | in a coherent state the templated and the named staleness tests agree, and a side that is not stale holds the latest contents |
| DualView.NewIsSynced | containers/src/Kokkos_DualView.hpp:222-241 | a new or reallocated view is blank on both sides and neither is stale |
| DualView.SyncYieldsLatest | containers/src/Kokkos_DualView.hpp:520-566 | syncing a stale side leaves the latest contents on both sides, both counters zero and neither side stale; syncing another changes nothing |
| DualView.MarkIsSeen | containers/src/Kokkos_DualView.hpp:669-700 | a mark makes the other side stale if and only if the higher counter is below 2^32 - 1 |
| DualView.MarksAreLost | containers/src/Kokkos_DualView.hpp:701-708 | 2^32 marks in a row leave both counters at zero, and a sync then copies nothing |
| DualView.ResizeKeeps | containers/src/Kokkos_DualView.hpp:775-819 | `resize` keeps coherence and the latest contents on the common range |
| DualView.ResizeChooses | containers/src/Kokkos_DualView.hpp:775-819 | the side that counts at least as high is kept and counts higher afterwards, the device when both count alike; the other is blank and stale |
| DualView.WithoutFlags | containers/src/Kokkos_DualView.hpp:637-671 | without flags nothing is stale, marked or synced, until a resize allocates them and marks the device |
| DualView.CopyTransfers | containers/src/Kokkos_DualView.hpp:925-937 | `deep_copy` transfers the latest contents of the source to the side that is up to date there |
| DualView.EveryRunIsCoherent | containers/src/Kokkos_DualView.hpp:520-742 | after every disciplined run of fewer than 2^32 operations the counters agree only at zero and the synced side holds what the operations meant |
| DualView.View.Modify | containers/src/Kokkos_DualView.hpp:669-737 | the counter of the side becomes one more than the higher one, modulo 2^32; nothing else changes |
| DualView.View.NeedSync | containers/src/Kokkos_DualView.hpp:636-662 | both kinds of test, false while the flags are not allocated |
| DualView.View.Synchronize | containers/src/Kokkos_DualView.hpp:520-634 | both kinds of sync; a coherent view then holds the latest contents on that side |
| DualView.View.ResizeTo | containers/src/Kokkos_DualView.hpp:775-819 | keeps the last modified side up to the new size and renews the other |
| DualView.View.ReallocateTo | containers/src/Kokkos_DualView.hpp:753-770 | blank contents on both sides, counters reset |
| DualView.View.CopyFrom | containers/src/Kokkos_DualView.hpp:925-937 | the destination becomes coherent with the latest contents of the source |
| Vector.Vec.constructor | containers/src/Kokkos_Vector.hpp:95-102 | `n` copies of the value, on the host side |
| Vector.Vec.Assign | containers/src/Kokkos_Vector.hpp:111-130 | the elements become `n` copies, on whichever side is up to date |
| Vector.Vec.Resize | containers/src/Kokkos_Vector.hpp:104-107 | the elements below both sizes survive |
| Vector.Vec.PushBack | containers/src/Kokkos_Vector.hpp:134-145 | appends one element, readable on the host, leaves the device stale, and grows a full storage by the growth factor |
| Vector.Vec.PopBack | containers/src/Kokkos_Vector.hpp:147-147 | drops the last element |
| Vector.Vec.Insert | containers/src/Kokkos_Vector.hpp:155-175 | inserts `count` copies at the position and shifts the rest; a position outside is refused without changing an element |
| Vector.Enlarged | containers/src/Kokkos_Vector.hpp:95-105 | the size times 11/10, rounded down |
| Vector.Grown | containers/src/Kokkos_Vector.hpp:137-141 | a full storage grows by one below ten elements, and by a tenth rounded down from ten on |
| Vector.CostBounds | containers/src/Kokkos_Vector.hpp:134-145 | the old sizes summed over all growths in `n` calls of `push_back` are at most `20 * n` |
| Vector.PushAll | containers/src/Kokkos_Vector.hpp:134-145 | `n` calls of `push_back` from empty store all values in order, with that cost |
| DynamicView.ShiftFor | containers/src/Kokkos_DynamicView.hpp:425-427 | the least shift whose chunk holds the minimum chunk size |
| DynamicView.ChunkSizeIsExact | containers/src/Kokkos_DynamicView.hpp:433-433 | the computed chunk size is right except that it is undefined exactly for a minimum of at most one |
| DynamicView.DestroySizeIsRight | containers/src/Kokkos_DynamicView.hpp:368-373 | the size given to the deallocator at destruction is what was allocated if and only if elements are one byte and chunks hold more than one |
| DynamicView.Locate | containers/src/Kokkos_DynamicView.hpp:259-287 | an access finds its chunk exactly below the allocated extent, and its chunk and offset name the index |
| DynamicView.PlaceIsUnique | containers/src/Kokkos_DynamicView.hpp:259-287 | different indices have different places |
| DynamicView.View.constructor | containers/src/Kokkos_DynamicView.hpp:418-456 | an empty view with a power-of-two chunk size of at least the minimum and a table that just covers the maximum extent |
| DynamicView.View.Read | containers/src/Kokkos_DynamicView.hpp:259-287 | reads the element of the flat array, or aborts beyond the allocated chunks |
| DynamicView.View.Write | containers/src/Kokkos_DynamicView.hpp:259-287 | changes one element of the flat array and no other |
| DynamicView.View.ResizeSerial | containers/src/Kokkos_DynamicView.hpp:301-333 | refuses more chunks than the table holds; otherwise the elements below both extents survive, pointers stay non-null exactly below the chunk counter, and chunks are freed with the size they were allocated with |
| DynamicView.View.Destroy | containers/src/Kokkos_DynamicView.hpp:360-396 | clearing the table in any order frees every chunk that was ever allocated exactly once, those that are left with the chunk size field as their size |
| DynamicView.View.Replay | containers/src/Kokkos_DynamicView.hpp:301-333 | over every run of writes and resizes the elements are those of a flat resizable array |
| DynamicView.Live | containers/src/Kokkos_DynamicView.hpp:301-396 | a whole life, from construction to destruction: flat array contents, every allocation freed exactly once, and with the size it was allocated with if and only if none is left for the destruction or elements are one byte and chunks more than one |

## Left out

- `UnorderedMap::erase` and `end_erase`, `clear`, the copy constructors and the histogram of the map.
- `find_hash_size` and the hash functions: the hash is an arbitrary function and the bucket count any positive number.
- Set-valued maps, in which no value is written.
- Completeness of an unbounded insert under contention: the walk overwrites the index hint, so a call may revisit a block.
- The modified flag of the map is read and written in one step; the original first tests and then writes it.
- The first index hint of `insert` is computed exactly, where the original divides in floating point.
- Rehash.ReplayAll: replays one entry after the other in index order; the members of `RehashParallel` are about the parallel replay of the original.
- RehashParallel.ParallelRehash: for tables with abandoned entries the parallel replay may store the value of any claimed entry of a key, as `RehashParallel.ParallelReplay` states.
- Whether an insert of the parallel replay can fail in a table with room: that is the completeness under contention named above.
- Rounding of keys and bin numbers in `BinOp1D` and `BinOp3D`, overflow of integer key differences, and the `std::sort` path of `sort`.
- `MinMax` identities of the key type are parameters of the sort.
- 32-bit, signed and floating point draws, `normal`, the 1024-bit generator, and the seeding of the pool (slots start with arbitrary seeds).
- The host form of `Random_UniqueIndex`, which returns the hardware thread number.
- The non-duplicated scatter view, the operations other than sum, and resizing a scatter view.
- Subviews of dual views, views of constant data, shared memory spaces in which host and device are one view, and the debug check for concurrent modification.
- Default-constructed vectors, the iterator-range insert, and the search functions of `vector`; the growth factor is fixed at 11/10.
- Vector.Vec.Resize: elements beyond the old size are whatever the storage holds, as in the original.
- Waiting in `operator()` of `DynamicView` for an allocation in progress: resizing is serial; overflow of the 32-bit extent arithmetic.
- `DynRankView`, `OffsetView`, `StaticCrsGraph` and `ErrorReporter`.
