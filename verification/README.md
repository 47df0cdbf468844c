# A verified model of the Stappler runtime's core algorithms

The repository is a libc and runtime layer. Under its wrappers lie several self-contained algorithms; this
project models the ones that are hard to get right and proves, for all inputs and all runs, what they are for.
Pointer code stays pointer code: nodes, entries, rings and lists are objects whose fields the methods assign, one by
one, as the source does; where assignments do not depend on each other, as in `makeInsert`, the order may differ. A
method is proved against a pure description of what it does to the memory (a map from objects to their fields), and
the invariants are proved about that description in small lemmas.

| part | files | what it is about |
|---|---|---|
| red-black tree | `RbLinks` `RbColors` `RbInsert` `RbErase` `RbSplice` `RbReplace` `RbEngine` `RbTree` `RbMeaning` `RbMove` `RbRun` | rotations, both fix-ups, stepping, replacement, insertion and deletion of nodes, searches, moving and swapping trees, any run against a set of keys |
| Punycode | `PunyDigits` `PunyEvents` `PunyCodec` `PunyTheorems` `PunyScan` `PunyEncoder` `PunyDecoder` `PunySamples` | both codecs, exactly when they undo each other, 32-bit guards, samples of RFC 3492 |
| version order | `VersionOrder` `VersionCases` `VersionKeys` | `strverscmp` case by case and as a total order |
| hash table | `HashChains` `HashWalk` `HashGrow` `HashMerge` `HashTable` `HashRun` | chains, growth, recycling and bulk operations against a plain map, any run of calls |
| memory pools | `MemNodes` `FreeLists` `Allocator` `NodeRing` `Pool` `ReuseCache` `ReuseRun` `PoolHouse` `PoolRun` `PoolTree` `PoolForest` `PoolOrder` `PoolCleanup` `PoolPlan` `PoolWorld` | allocator cache, node ring, bump allocation, reuse cache, pools on one allocator, creation, clearing and destruction anywhere in a tree of pools, cleanups, any run of each of these |
| SHA | `ShaPad` `ShaWords` `ShaRounds` `ShaStream` `Sha2Stream` `Sha2Digests` `Sha1Rounds` `Sha1Stream` `Sha1Digests` `ShaStandard` `ShaConstants` | SHA-1, SHA-256 and SHA-512 from the bytes of any pieces to the bytes of the standard's digest |
| calendar | `Calendar` `DateText` `DateTrips` `DateOffsets` `DateForms` `DateReads` | two day counts against the day-by-day calendar, ISO weeks, three date texts printed and read back, offsets, all forms that are read |
| Base64 | `Base64` `Base64Standard` | one decoder for two encoders, bounded output, the alphabets and groups of RFC 4648 |
| shared | `Common` `Latches` | sequences, options, powers of two; large invariants that a proof hands on without looking inside |

How the invariants are phrased:

* *Red-black tree.* Every node carries a ghost label: its place in the in-order sequence and the span of its
  subtree. `Link` says of one node that its pointers and label agree with its neighbours', `Linked` says it of all.
  `Colored` has three loose ends: a phantom that counts for nothing because it is about to be unlinked, a node that
  is owed one black, and a node that may be red under red. The fix-ups are loops that move one loose end up.
  `RbMeaning` reads the local conditions back as statements about whole trees.
* *Punycode.* A string is its basic code points plus the insertions that build it, in the order of code points.
  The decoder performs the insertions, the encoder finds them, and the numbers on the wire are the distances
  between them; `Scanning` ties the encoder's `(n, delta, h, bias)` to the decoder's state.
* *Hash table and pools.* The ghost state names the chain of every bucket and the entry of every key, the ring as a
  sequence from the active node on, the blocks handed out. Invariants speak of one bucket, key or node at a time.
* *Trees of pools.* Every pool of the tree owns a `Pools.Pool` on one shared allocator. `PoolHouses.Housed` says that
  all of them are sound, that their nodes are in use and that no node has two owners; `PoolHouses.Handed` says which
  nodes went back to the allocator, in which order, each once, and that the nodes in use are exactly the others.
  `PoolPlans.Plan` is such a tree without its pointers; orders by paths of child numbers act on it by plain recursion.
* *Runs.* Every step says which objects it may have taken over (nodes that were cached or are new, and no others), so
  that steps can follow each other. `RbRuns.Run`, `HashRuns.Run`, `PoolRuns.Run`, `ReuseRuns.Run` and `PoolWorlds.Run`
  take any sequence of calls and say that the structure ends up where the same calls take its plain counterpart.
* *SHA.* Streaming is proved for any block function, the rounds for any kind of word; `Sha2Digests` and `Sha1Digests`
  put in 32-bit and 64-bit words, the functions as the source computes them, the constants and big-endian bytes, and
  compare with `ShaStandard`, which follows FIPS 180-4 section by section and shares no word function and no round with
  the model of the code. `ShaConstants` says of the tables what the standard says of them: fractions of roots of primes.

What the code does that one might not expect, kept as it is and stated exactly:

* `upper_bound_ptr` starts its search with the root as the answer, so when no key is greater it returns the root
  instead of the end; `RbTrees.RbTree.UpperBound` states both cases.
* `decrement` of the first node climbs through the header back to the first node, because the header's `parent` is
  the first node; `RbEngine.RbCore.Decrement` states all cases.
* `replace` has branches for the new node being a child of the old one, but the child's own children are lost:
  replacing a node by another node of the same tree leaves a tree if and only if that node is a leaf right below it
  (`RbReplace.ReplaceExact`); `RbReplace.RowLoses` shows three nodes of which one is lost. `deleteNode` never gets
  there. The `s == null` branches of the erase fix-up are dead: a node that is owed a black has a sibling
  (`RbErase.GetFamily`).
* `swap` of two red-black trees exchanges the headers but not the parents of the roots, which moving a tree does set:
  what it leaves on either side is a tree if and only if what came there was empty (`RbMoves.HandedExact`,
  `RbMoves.Swap`); `RbMoves.SingleLost` shows a tree of one node that is lost.
* The Punycode encoder guards the number it writes, the decoder the sum of that number and its position. Strings
  between the two limits, far outside Unicode, are written and then refused (`PunyTheorems.RoundTripGap`);
  `PunyTheorems.RoundTripExact` says exactly which strings come back. The decoder also cuts the caller's buffer
  length to 32 bits before it compares.
* `set_max` keeps the cache budget exact if and only if what is cached fits the new limit
  (`FreeLists.LimitExact`).
* `geti` counts days from 1900 on. Before that C division rounds the other way; `Calendar.GetiExact` says for every
  year, by its leap rule, whether the count is right, and `Calendar.GetiBefore1900` shows a date that is one day off.
* `cleanup_kill` takes a match from both lists of a pool, so it undoes a `cleanup_register` if and only if no
  pre-cleanup matches too (`PoolCleanups.KillUndoesRegister`, `PoolCleanups.KillTakesBoth`).
* SHA-512 keeps 64 of the 128 bits of the length: its padding is the standard's exactly for messages of less than 2^64
  bits (`ShaPad.PadWide`).
* An offset of a minute or more west of GMT is printed with characters that are no digits, because the remainders of C
  are negative: five hours west is `-0+:00` (`DateOffsets.DigitsPrinted`, `DateOffsets.FiveHoursWest`). An offset of
  four digits is read with base 0, so a leading zero makes it octal, and `+0530` is read as three hours and forty-four
  minutes (`DateOffsets.HalfPastFiveEast`). `DateOffsets.IsoOffset` and `DateOffsets.Rfc822Offset` say exactly which
  offsets come back.
* `yyyy-mm-dd` and `dd.mm.yyyy` are accepted with month 00, which is stored as month -1 (`DateReads.DayRead`,
  `DateReads.DotsRead`).
* Reading an ISO 8601 text without a fraction leaves the microseconds as they were, and reading the text of `ctime`
  leaves the zone unset; the round trips state both. A printer that has no room at all returns 2^64 - 1.
* `foreach` over an empty hash table returns false.

## Model

| member | source | states |
|---|---|---|
| RbEngine.RbCore.RotateLeft | core/mem/SPRuntimeMemUtils.cc:341-360 | the pointer surgery turns the shape by exactly one rotation: the in-order sequence and every link outside stay |
| RbEngine.RbCore.RotateRight | core/mem/SPRuntimeMemUtils.cc:362-381 | the mirror image |
| RbLinks.RotateLinked | core/mem/SPRuntimeMemUtils.cc:341-381 | a rotation keeps all parent and child links consistent and every node's place in order |
| RbInsert.FlipStep | core/mem/SPRuntimeMemUtils.cc:383-425 | red uncle: recolouring keeps all black counts and moves the possible red-red pair up two levels |
| RbInsert.InnerStep | core/mem/SPRuntimeMemUtils.cc:383-425 | inner grandchild: one rotation keeps the invariant with the violation at the former parent |
| RbInsert.OuterStep | core/mem/SPRuntimeMemUtils.cc:383-425 | outer grandchild: rotation and recolouring leave no violation below the root |
| RbInsert.FinishInsert | core/mem/SPRuntimeMemUtils.cc:383-425 | blackening the root at the end satisfies every red-black condition |
| RbEngine.RbCore.InsertRepair | core/mem/SPRuntimeMemUtils.cc:383-425 | from any red-black tree with one fresh red node the loop terminates with all red-black conditions, consistent links, the same in-order sequence and the same first and last node |
| RbErase.GetFamily | core/mem/SPRuntimeMemUtils.cc:427-508 | a node below the root that is owed a black has a sibling, so the null-sibling branches are dead |
| RbErase.RedSiblingStep | core/mem/SPRuntimeMemUtils.cc:427-508 | red sibling: rotating it up keeps the debt at the node and gives it a black sibling |
| RbErase.PullStep | core/mem/SPRuntimeMemUtils.cc:427-508 | black nephews under a black parent: the parent inherits the debt, all counts agree with it charged |
| RbErase.AbsorbStep | core/mem/SPRuntimeMemUtils.cc:427-508 | black nephews under a red parent: the parent pays, no debt is left |
| RbErase.InnerRedStep | core/mem/SPRuntimeMemUtils.cc:427-508 | inner red nephew: turned into the outer case without changing any count |
| RbErase.SettleStep | core/mem/SPRuntimeMemUtils.cc:427-508 | outer red nephew: one rotation pays the debt |
| RbEngine.RbCore.EraseRepair | core/mem/SPRuntimeMemUtils.cc:427-508 | from any red-black tree whose node n is owed one black (with or without a phantom) the loop terminates with a black root, no red-red edge, equal black counts, consistent links and the same sequence |
| RbEngine.RbCore.Increment | core/mem/SPRuntimeMemUtils.cc:216-237 | returns exactly the in-order successor, and the header after the last node |
| RbEngine.RbCore.Decrement | core/mem/SPRuntimeMemUtils.cc:263-285 | returns exactly the in-order predecessor, the last node before the header, and what really happens at the first node |
| RbEngine.RbCore.Replace | core/mem/SPRuntimeMemUtils.cc:311-339 | a new node from outside the tree stands in every link and at the place in order of the old one |
| RbEngine.RbCore.ReplaceWithin | core/mem/SPRuntimeMemUtils.cc:311-339 | for every other node of the tree as the new one, what the assignments make of the memory; a leaf right below the old node takes its place and all links stay consistent |
| RbReplace.ReplaceExact | core/mem/SPRuntimeMemUtils.cc:311-339 | for every new node of the tree there are labels and an order that make the result a tree if and only if it is a leaf right below the old node |
| RbReplace.RowLoses | core/mem/SPRuntimeMemUtils.cc:326-336 | three nodes in a row, of which the last is lost when the second replaces the first |
| RbTrees.RbTree.Enumerate | core/mem/SPRuntimeMemUtils.cc:216-237 | stepping on from the leftmost node yields the whole in-order sequence |
| RbTrees.RbTree.OnAndBack | core/mem/SPRuntimeMemUtils.cc:216-285 | increment and then decrement leads back, from every node |
| RbTrees.RbTree.BackAndOn | core/mem/SPRuntimeMemUtils.cc:216-285 | decrement and then increment leads back, from every node but the first |
| RbMeaning.WalkIsOrder | core/mem/SPRuntimeMemUtils.cc:216-309 | the label-free in-order walk from the root is the ghost sequence and meets every node once |
| RbMeaning.ColoredPaths | core/mem/SPRuntimeMemUtils.cc:383-508 | the local colour conditions give one black count on every path below a node and no red child of a red node |
| RbMeaning.RedBlackIsBalanced | core/mem/SPRuntimeMemUtils.cc:383-508 | a tree of n nodes has height at most 2 log2(n + 1) |
| RbSplice.GrowInsertInv | include/sprt/cxx/detail/rbtree.h:856-880 | hanging a red leaf on a free side establishes the insert fix-up's precondition |
| RbSplice.StartPhantom | include/sprt/cxx/detail/rbtree.h:882-957 | a black leaf about to go may be treated as a phantom that owes one black |
| RbSplice.PrunePhantom | include/sprt/cxx/detail/rbtree.h:882-957 | unlinking the paid phantom leaves a red-black tree |
| RbSplice.PruneAboveChild | include/sprt/cxx/detail/rbtree.h:882-957 | splicing out a node with one child, which is red, and blackening the child keeps all counts |
| RbSplice.RenameColored | include/sprt/cxx/detail/rbtree.h:882-957 | a stand-in with the colour of the node it replaces keeps all colour conditions |
| RbTrees.RbTree.constructor | include/sprt/cxx/detail/rbtree.h:856-880 | the empty tree satisfies the invariant |
| RbTrees.RbTree.MakeInsert | include/sprt/cxx/detail/rbtree.h:856-880 | the node enters the sequence exactly at the chosen side of the parent; tree, ends and size stay valid |
| RbTrees.RbTree.DeleteNode | include/sprt/cxx/detail/rbtree.h:882-957 | exactly the node leaves the sequence; the others keep their order and the tree, its ends and its size stay valid |
| RbTrees.RbTree.SearchPosition | include/sprt/cxx/detail/rbtree.h:653-671 | finds an equivalent key, or a free place where the key fits between smaller and greater ones |
| RbTrees.RbTree.TryHint | include/sprt/cxx/detail/rbtree.h:684-731 | whatever node is given as a hint, when it settles the search it has found an equivalent key or a place where the key fits |
| RbTrees.RbTree.InsertPosition | include/sprt/cxx/detail/rbtree.h:673-780 | the same after the root, hint, leftmost and rightmost shortcuts |
| RbTrees.RbTree.InsertUnique | include/sprt/cxx/detail/rbtree.h:782-803 | with or without a hint, inserts if and only if no equivalent key is present, at the place that keeps the keys ascending |
| RbTrees.RbTree.Find | include/sprt/cxx/detail/rbtree.h:1026-1041 | finds an equivalent key if and only if there is one |
| RbTrees.RbTree.LowerBound | include/sprt/cxx/detail/rbtree.h:1043-1056 | the first key not smaller, or null exactly when all are smaller |
| RbTrees.RbTree.UpperBound | include/sprt/cxx/detail/rbtree.h:1058-1071 | the first greater key if there is one, and the root otherwise |
| RbMoves.MovedLinked | include/sprt/cxx/detail/rbtree.h:287-301 | a tree under another header, with the parent of the root set, is a tree in the same order |
| RbMoves.MovedColored | include/sprt/cxx/detail/rbtree.h:287-301 | and keeps all colour conditions |
| RbMoves.Move | include/sprt/cxx/detail/rbtree.h:287-301 | move construction: the new tree has all nodes in their order, both trees are valid and the old one is empty |
| RbMoves.HandedExact | include/sprt/cxx/detail/rbtree.h:460-466 | copying the header's fields alone leaves a tree if and only if it was empty |
| RbMoves.Swap | include/sprt/cxx/detail/rbtree.h:460-466 | after swap each side is a tree, for some labels and order, if and only if the tree that came there was empty |
| RbMoves.SingleLost | include/sprt/cxx/detail/rbtree.h:460-466 | a tree of one node that is none after swap |
| RbRuns.KeysErase | include/sprt/cxx/detail/rbtree.h:394-401 | without the node found, the keys are exactly those not equivalent to the key |
| RbRuns.Run | include/sprt/cxx/detail/rbtree.h:343-479 | any sequence of insertions, erasures and searches does to the tree what it does to a set of keys up to equivalence, every answer is right and the size exact |
| RbRuns.RunNew | include/sprt/cxx/detail/rbtree.h:343-479 | from the empty tree; the walk from the leftmost node is then that set in ascending order |
| PunyDigits.DigitRoundTrip | src/SPRuntimeIdn.cpp:1519-1526 | decoding a digit inverts encoding it, and accepts exactly its two letter cases |
| PunyDigits.ThresholdIs | src/SPRuntimeIdn.cpp:1537-1543 | the threshold at a place is its distance from the bias, kept between 1 and 26 |
| PunyDigits.ParseSound | src/SPRuntimeIdn.cpp:1684-1713 | the bytes an accepted integer was read from are, up to letter case, the digits of the amount added |
| PunyDigits.ParseComplete | src/SPRuntimeIdn.cpp:1684-1713 | the digits of any amount that keeps the sum within 32 bits are read back; neither overflow guard fires |
| PunyDigits.WeightStep | src/SPRuntimeIdn.cpp:1709-1712 | while the sum fits 32 bits the weight guard cannot fire, for any bias in range |
| PunyEvents.AdaptBound | src/SPRuntimeIdn.cpp:1506-1517 | the adapted bias never exceeds 213 for 32-bit distances |
| PunyEvents.AdaptIs | src/SPRuntimeIdn.cpp:1500-1517 | the new bias in closed form: with x the distance divided by 700 or 2, y = x + x/points and m the least number of divisions by 35 that leave r of at most 455, it is 36 m + 36 r / (r + 38) |
| PunyEvents.ReplayEvents | src/SPRuntimeIdn.cpp:1651-1741 | a string's insertions are in order and replaying them on its basic code points gives the string back |
| PunyEvents.EventsReplay | src/SPRuntimeIdn.cpp:1651-1741 | every ordered run of insertions is the run of the string it builds |
| PunyCodec.DecodeSound | src/SPRuntimeIdn.cpp:1678-1741 | whatever the decoder accepts is the wire form of an ordered run in range, and it carries that run out |
| PunyCodec.DecodeComplete | src/SPRuntimeIdn.cpp:1678-1741 | the wire form of every run in range is accepted and carried out |
| PunyTheorems.DecodeExact | src/SPRuntimeIdn.cpp:1651-1741 | decode(e) = s if and only if e with its extended letters lower-cased is encode(s) and every distance of s fits 32 bits |
| PunyTheorems.DecodeInjective | src/SPRuntimeIdn.cpp:1651-1741 | two accepted inputs with the same result differ at most in the letter case of the extended part |
| PunyTheorems.RoundTripExact | src/SPRuntimeIdn.cpp:1562-1741 | decode(encode(s)) = s if and only if every distance of s fits 32 bits |
| PunyTheorems.RoundTrip | src/SPRuntimeIdn.cpp:1562-1741 | the round trip holds whenever the largest code point times the length stays below 2^32, so for all Unicode strings of ordinary length |
| PunyTheorems.RoundTripGap | src/SPRuntimeIdn.cpp:1562-1741 | a string the encoder writes and no input decodes to |
| PunyScan.ScanEmit | src/SPRuntimeIdn.cpp:1601-1615 | at an occurrence of n, delta is the number to write; writing it moves the encoder's state to the decoder's after that insertion |
| PunyScan.ScanJump | src/SPRuntimeIdn.cpp:1586-1600 | skipping the code points that do not occur keeps delta the distance to the scan position |
| PunyScan.EventsPrefix | src/SPRuntimeIdn.cpp:1585-1617 | what is written at any moment is a beginning of what will be written |
| PunyScan.DeltaFits | src/SPRuntimeIdn.cpp:1592-1606 | for a string whose numbers fit, neither delta guard fires |
| PunyEncoder.AdaptBias | src/SPRuntimeIdn.cpp:1506-1517 | the loop computes the bias function both codecs share |
| PunyEncoder.EncodeVarInt | src/SPRuntimeIdn.cpp:1529-1559 | the loop writes exactly the generalised variable-length integer |
| PunyEncoder.FindNext | src/SPRuntimeIdn.cpp:1586-1591 | the smallest code point from n up, and that it occurs |
| PunyEncoder.PunycodeEncode | src/SPRuntimeIdn.cpp:1562-1617 | succeeds if and only if every number to write fits 32 bits, and then the output is encode(s) |
| PunyDecoder.ReadInt | src/SPRuntimeIdn.cpp:1684-1713 | the loop reads exactly the integer the parsing function describes, guards included |
| PunyDecoder.InsertInPlace | src/SPRuntimeIdn.cpp:1728-1732 | the memmove and the store insert the code point and keep the rest in order |
| PunyDecoder.PunycodeDecode | src/SPRuntimeIdn.cpp:1651-1741 | accepts exactly what decode accepts and fits the room; length and contents are those of decode, with and without an output array, so the counting and the writing pass agree |
| PunySamples.Spelled | src/SPRuntimeIdn.cpp:1529-1559 | any complete run of digits in the sense of section 3.3 of RFC 3492, with its own weights and thresholds, is what its value is written as |
| PunySamples.Sensei | src/SPRuntimeIdn.cpp:1562-1617 | sample (L) of section 7.1 of RFC 3492, five extended code points among three basic ones, is written as `3B-ww4c5e180e575a65lsy2b` |
| PunySamples.SampleAscii | src/SPRuntimeIdn.cpp:1562-1617 | sample (S), without extended code points, is written as itself and a delimiter |
| VersionOrder.StrVersCmp | core/runtime_core_defaults.cpp:127-166 | the two loops return the value of the context-by-context comparison, reading no byte past a terminator |
| VersionCases.CompareCases | core/runtime_core_defaults.cpp:127-166 | the exact result for any common beginning p (empty or ending in no digit), common digits n after it and different rests: by length of the digit runs inside a number, zeros before other digits before the rest after zeros, and otherwise the difference of the bytes |
| VersionCases.Apart | core/runtime_core_defaults.cpp:134-146 | any two different texts are of that shape, so the cases are all there are |
| VersionCases.MoreZerosFirst | core/runtime_core_defaults.cpp:159-162 | more zeros come before fewer, whatever follows them but a digit |
| VersionCases.FractionFirst | core/runtime_core_defaults.cpp:159-162 | after zeros a digit comes before a byte that is none, and before the end |
| VersionCases.ManualOrder | core/runtime_core_defaults.cpp:127-166 | 000 < 00 < 01 < 010 < 09 < 0 < 1 < 9 < 10 |
| VersionKeys.LongerRunWins | core/runtime_core_defaults.cpp:148-158 | inside a number the longer run of digits decides, wherever the strings first differ |
| VersionKeys.CompareIsLex | core/runtime_core_defaults.cpp:127-166 | the sign is that of a lexicographic comparison of keys computed from each string alone |
| VersionKeys.CompareTotalOrder | core/runtime_core_defaults.cpp:127-166 | zero exactly on equal strings, antisymmetric in sign, and transitive |
| VersionKeys.DottedNumbers | core/runtime_core_defaults.cpp:127-166 | on dotted numbers without leading zeros the sign is that of the component-wise numeric comparison |
| HashChains.FindMiss | core/mem/SPRuntimeMemHash.cc:125-144 | a key that is not in its bucket's chain is nowhere in the table |
| HashChains.AppendInv | core/mem/SPRuntimeMemHash.cc:146-158 | a new entry behind its chain keeps the invariant of all buckets, keys and recycled entries |
| HashChains.UnlinkInv | core/mem/SPRuntimeMemHash.cc:209-214 | unlinking an entry onto the free list keeps it too |
| HashWalk.FlatNoDup | core/mem/SPRuntimeMemHash.cc:62-72 | the walk over all buckets meets no entry twice |
| HashWalk.FlatLive | core/mem/SPRuntimeMemHash.cc:62-72 | the walk meets exactly the entries that hold a key |
| HashWalk.FlatCount | core/mem/SPRuntimeMemHash.cc:62-72 | it meets as many entries as the map has keys |
| HashWalk.HashIndex.Next | core/mem/SPRuntimeMemHash.cc:62-72 | each call yields the next entry of the walk, and null exactly at its end |
| HashGrow.MoveStep | core/mem/SPRuntimeMemHash.cc:109-113 | moving one entry to the front of its new bucket keeps the half-built array sound |
| HashGrow.GrownInv | core/mem/SPRuntimeMemHash.cc:101-115 | when all entries have moved, the new array satisfies the whole invariant for the same keys |
| HashTables.HashTable.Make | core/mem/SPRuntimeMemHash.cc:38-60 | the new table is the empty map, in buckets of its own |
| HashTables.HashTable.Scan | core/mem/SPRuntimeMemHash.cc:125-144 | ends at the entry that holds the key, or at the end of the chain exactly when the key is absent |
| HashTables.HashTable.TakeEntry | core/mem/SPRuntimeMemHash.cc:146-151 | a recycled entry is used before a new one, and is in no chain and no longer recycled |
| HashTables.HashTable.ExpandArray | core/mem/SPRuntimeMemHash.cc:101-115 | twice the buckets, the same map, the same entries |
| HashTables.HashTable.Get | core/mem/SPRuntimeMemHash.cc:195-203 | the map's value for the key, or none |
| HashTables.HashTable.Set | core/mem/SPRuntimeMemHash.cc:205-226 | stores, replaces or deletes in the map, and afterwards count is exact, count <= max and max + 1 a power of two |
| HashTables.HashTable.Delete | core/mem/SPRuntimeMemHash.cc:205-226 | removes exactly the key, onto the free list |
| HashTables.HashTable.Clear | core/mem/SPRuntimeMemHash.cc:230-235 | deleting while walking empties the map and puts every entry on the free list |
| HashMerge.PushInv | core/mem/SPRuntimeMemHash.cc:266-272 | a new entry in front of its chain keeps the invariant |
| HashMerge.MergedPlain | core/mem/SPRuntimeMemHash.cc:237-239 | without a merger the merged map is base overridden by overlay |
| HashMerge.MergedIs | core/mem/SPRuntimeMemHash.cc:281-307 | under a key of both maps stands what the merger makes of the key, the value of overlay and the value of base, in that order; any other key keeps the one value there is |
| HashTables.HashTable.Merge | core/mem/SPRuntimeMemHash.cc:241-309 | the result is the merged map with exact count, the merger called with the values of overlay and of base in that order, in buckets and entries of its own, and the reserved entries are never overrun |
| HashTables.HashTable.Copy | core/mem/SPRuntimeMemHash.cc:161-193 | an equal map in a table with buckets and entries of its own, of the same size, within the reserved entries |
| HashTables.HashTable.ForEach | core/mem/SPRuntimeMemHash.cc:311-332 | true exactly when there are entries and the callback accepts all; entries are visited in walk order up to the first refusal |
| HashRuns.Run | core/mem/SPRuntimeMemHash.cc:195-235 | any sequence of set, get and clear does to the table what it does to a map, and every get finds what the map then holds |
| HashRuns.RunNew | core/mem/SPRuntimeMemHash.cc:38-235 | the same from the new table |
| HashRuns.RunCopy | core/mem/SPRuntimeMemHash.cc:161-193 | whatever is done to a copy, the table it was made from stays as it was |
| HashRuns.RunMerged | core/mem/SPRuntimeMemHash.cc:241-309 | any run that starts from a merged table; neither part is touched |
| MemNodes.RequestAdequate | core/mem/SPRuntimeMemAlloc.cc:147-162 | for every 64-bit request: refused exactly above one limit, otherwise a 32-bit whole number of units with room for it |
| FreeLists.FreeOneGood | core/mem/SPRuntimeMemAlloc.cc:266-301 | caching a node keeps every bucket's index, `last` and the budget equation |
| FreeLists.FreeAllGood | core/mem/SPRuntimeMemAlloc.cc:251-315 | so does a whole list of nodes |
| FreeLists.InFront | core/mem/SPRuntimeMemAlloc.cc:270-300 | a node that is kept heads its list, and no other list changes |
| FreeLists.FreeAllStacks | core/mem/SPRuntimeMemAlloc.cc:262-301 | every list then holds the nodes kept that belong there, last one first, in front of what it held: those of index below 20 in the list of their index, the others in the sink |
| FreeLists.ReleasedExact | core/mem/SPRuntimeMemAlloc.cc:266-269 | with a limit a node is released if and only if the cache, as it is by then, has no room for it |
| FreeLists.NoLimit | core/mem/SPRuntimeMemAlloc.cc:266-269 | without a limit nothing is released |
| FreeLists.TakeFrontGood | core/mem/SPRuntimeMemAlloc.cc:171-206 | taking a bucket's first node keeps them, with `last` lowered to the next bucket in use |
| FreeLists.TakeSinkGood | core/mem/SPRuntimeMemAlloc.cc:207-231 | taking a node out of the sink keeps them |
| FreeLists.BucketsCover | core/mem/SPRuntimeMemAlloc.cc:171-207 | a request up to `last` finds a bucket, and above `last` no bucket holds a node large enough |
| FreeLists.LimitExact | core/mem/SPRuntimeMemAlloc.cc:134-145 | a new limit keeps the budget exact if and only if the cache fits it, in 32-bit arithmetic |
| Allocators.Allocator.SetMax | core/mem/SPRuntimeMemAlloc.cc:134-145 | the same for the method, with the limit rounded up to units |
| Allocators.Allocator.Alloc | core/mem/SPRuntimeMemAlloc.cc:147-249 | null exactly above the limit; otherwise a node in use, no longer cached, large enough: the front of the lowest bucket from the request up that has one, or the first of the sink that is large enough, and new, of the least size, only when no cached node was; the bytes accounted for are those of all owned nodes |
| Allocators.Allocator.Free | core/mem/SPRuntimeMemAlloc.cc:251-331 | every node ends up cached or released, never both, the cached ones in front of the list they belong in, and without a limit none is released; cache, `last`, budget and bytes stay exact |
| Allocators.Allocator.Destroy | core/mem/SPRuntimeMemAlloc.cc:111-132 | everything cached is released and exactly the nodes in use stay accounted for |
| NodeRing.RemoveRing | core/mem/SPRuntimeMemUtils.cc:131-134 | removing a node leaves one cycle through the others |
| NodeRing.InsertMiddle | core/mem/SPRuntimeMemUtils.cc:124-129 | inserting before a node gives one cycle with the new node in front of it |
| NodeRing.MovedInOrder | core/mem/SPRuntimeMemPool.cc:188-204 | the former active node, put where the scan stops, leaves the non-active nodes sorted by descending free index |
| Pools.FindPlace | core/mem/SPRuntimeMemPool.cc:193-199 | the scan terminates, at the latest at the new active node, and stops at the first node with no more free |
| Pools.Pool.Create | core/mem/SPRuntimeMemPool.cc:272-290 | a pool in one node of its own, which is new or was cached |
| Pools.Pool.PAlloc | core/mem/SPRuntimeMemPool.cc:121-205 | at default alignment succeeds exactly up to one limit; the block is large enough, on a boundary of 16, inside its node and apart from all earlier ones; it comes from the active node if that has room, otherwise from the next if that has, otherwise from a node that joins; the ring stays one cycle with self and active, in order; nodes that join it are new or were cached, and nodes held elsewhere stay in use and outside it |
| Pools.Pool.PAllocSelf | core/mem/SPRuntimeMemPool.cc:207-222 | the same, from the pool's own node when it has room |
| Pools.Pool.PAllocRun | core/mem/SPRuntimeMemPool.cc:121-222 | over any sequence of requests of both kinds: one block for each that can be met, large enough and in order, all apart and inside their nodes |
| Pools.Pool.ClearNodes | core/mem/SPRuntimeMemPool.cc:252-269 | every other node goes to the allocator exactly once and the pool's own node is the whole ring again; nodes held elsewhere stay in use |
| Pools.Pool.ReleaseNodes | core/mem/SPRuntimeMemPool.cc:334-345 | every node of the pool goes to the allocator exactly once, none stays in use, and every other node in use still is |
| PoolHouses.AllocIn | core/mem/SPRuntimeMemPool.cc:121-222 | an allocation of either kind in one of several pools on one allocator keeps all of them sound, their nodes in use and no node with two owners; nodes that join the pool are new or were cached |
| PoolHouses.ReturnIn | core/mem/SPRuntimeMemPool.cc:334-345 | a pool that goes hands exactly its own nodes to the allocator, each once, and the house of the others stands |
| PoolHouses.ClearIn | core/mem/SPRuntimeMemPool.cc:252-269 | so does clearing one of them, for all its nodes but its own |
| PoolHouses.CreateIn | core/mem/SPRuntimeMemPool.cc:350-367 | a new pool on the allocator shares no node with the others; its node is new or was cached |
| PoolHouses.HandedOn | core/mem/SPRuntimeMemAlloc.cc:251-331 | lists handed to the allocator one after the other are one list handed over, each node once, with one effect on the cache |
| PoolHouses.BlocksApart | core/mem/SPRuntimeMemPool.cc:121-205 | blocks of different pools of a house never overlap |
| PoolRuns.Run | core/mem/SPRuntimeMemPool.cc:121-345 | over any sequence of pools created, destroyed and cleared and blocks taken, each step adds or takes back exactly the blocks it says, and all pools stay sound with their nodes in use and no node with two owners |
| PoolRuns.StandingApart | core/mem/SPRuntimeMemPool.cc:121-345 | then no two blocks overlap, of one pool or of two |
| ReuseCaches.FindFit | core/mem/SPRuntimeMemUtils.cc:39-75 | the smallest cached block between the request and twice the request, if there is one |
| ReuseCaches.InsertBySize | core/mem/SPRuntimeMemUtils.cc:92-121 | a freed block is placed so that the cache stays sorted by size |
| ReuseCaches.AllocManager.Alloc | core/mem/SPRuntimeMemUtils.cc:39-77 | that block, which leaves the cache, or a new one of the pool when nothing fits; it was not in use; the byte counts; nodes that join the pool are new or were cached, and nodes held elsewhere stay in use and outside it |
| ReuseCaches.AllocManager.Free | core/mem/SPRuntimeMemUtils.cc:79-122 | the block enters the cache in front of all that are not smaller, its record comes from the spare records or the pool, and the byte counts say which; the same holds for the nodes |
| ReuseCaches.AllocManager.Clear | core/mem/SPRuntimeMemPool.cc:249-270 | after clear and reset the cache is empty, nothing counts as in use, and the invariant of cache and pool holds again |
| ReuseCaches.NeverOverlap | core/mem/SPRuntimeMemUtils.cc:39-122 | blocks in use, cached blocks and records never overlap |
| ReuseRuns.Run | core/mem/SPRuntimeMemUtils.cc:39-122 | over any sequence of requests, blocks given back and clears, the caller holds exactly what the calls say, a block of at least its size for every request that can be met, all apart and recorded as in use |
| ReuseRuns.HandApart | core/mem/SPRuntimeMemUtils.cc:39-122 | blocks in hand that the books know never overlap |
| ReuseRuns.RunIn | core/mem/SPRuntimeMemUtils.cc:39-122 | such a run leaves every other pool on the allocator sound, with its nodes in use and its own |
| ReuseRuns.AskIn | core/mem/SPRuntimeMemUtils.cc:39-77 | so does one request, with the block it grants |
| ReuseRuns.GiveBackIn | core/mem/SPRuntimeMemUtils.cc:79-122 | and giving one block back: it moves from the blocks in use to the cache if it is kept |
| PoolTrees.RunPass | core/mem/SPRuntimeMemUtils.cc:138-152 | the cleanups taken are all, or the plain ones, in list order; those with a callback run, and exactly the others stay |
| PoolTrees.PerformCleanup | core/mem/SPRuntimeMemPool.cc:72-97 | pre-cleanups newest first, then all pools below with all their memory, then cleanups newest first; the pool keeps its place |
| PoolTrees.Destroy | core/mem/SPRuntimeMemPool.cc:321-345 | that, then the unlinking and the memory: the nodes of the pool and of all pools below go to the allocator, each exactly once, and are in use no more, while all other pools stay sound |
| PoolTrees.Clear | core/mem/SPRuntimeMemPool.cc:249-270 | the same cleanups and destruction below; the pool stays with its own node, and the nodes handed back are those below and its other ones, each once |
| PoolTrees.ReturnedOnce | core/mem/SPRuntimeMemPool.cc:72-97 | the memory of exactly the pools below is returned, once each |
| PoolTrees.CleanupsOnce | core/mem/SPRuntimeMemPool.cc:72-97 | every cleanup with a callback runs as often as it is registered, one without never |
| PoolOrders.DestroyedInOrder | core/mem/SPRuntimeMemPool.cc:72-97 | of every pool destroyed, at any depth: whatever happens to the pools below it lies behind its pre-cleanups, before its cleanups, and all of that before its memory goes back |
| PoolOrders.SiblingOrder | core/mem/SPRuntimeMemPool.cc:83-84 | sibling pools go one after the other, each with all that is below it |
| PoolOrders.RanInOrder | core/mem/SPRuntimeMemUtils.cc:138-152 | the callbacks of a list run in the order of the list |
| PoolOrders.RanSkips | core/mem/SPRuntimeMemUtils.cc:143-145 | a cleanup without a callback leaves no trace |
| PoolForests.PruneForest | core/mem/SPRuntimeMemPool.cc:324-332 | unlinking a pool at any depth leaves the forest without it and the pools below, with all links and back references in place |
| PoolForests.GrowForest | core/mem/SPRuntimeMemPool.cc:306-319 | linking a new pool below any pool of the forest gives the forest with it as first child there |
| PoolForests.DestroyPool | core/mem/SPRuntimeMemPool.cc:321-345 | on the whole tree: exactly the pool and those below go, with exactly their nodes; tree and house of the others stand |
| PoolForests.RewriteForest | core/mem/SPRuntimeMemPool.cc:249-270 | new lists and children for a pool at any depth leave the forest rewritten there, with all links in place |
| PoolForests.ClearPool | core/mem/SPRuntimeMemPool.cc:249-270 | on the whole tree: exactly the pools below go, the pool stays in its place with its own node and no cleanups, exactly the nodes below and its other ones are handed back, and tree and house stand |
| PoolForests.MakeChild | core/mem/SPRuntimeMemPool.cc:350-367 | on the whole tree: the new pool heads the list of its parent wherever that is, in a node no other pool has, new or formerly cached |
| PoolCleanups.Register | core/mem/SPRuntimeMemPool.cc:369-385 | the cleanup heads its list; its record is a recycled one or a block of the pool, and all pools of the house stay sound; nodes that join one are new or were cached |
| PoolCleanups.PreRegister | core/mem/SPRuntimeMemPool.cc:387-402 | the same for pre-cleanups |
| PoolCleanups.Kill | core/mem/SPRuntimeMemPool.cc:404-437 | the newest match of each list is removed, and no record is lost |
| PoolCleanups.KillIn | core/mem/SPRuntimeMemPool.cc:407-420 | the scan of one list removes the newest cleanup with this data and this callback, and the list is one shorter if and only if there is one |
| PoolCleanups.KilledOthers | core/mem/SPRuntimeMemPool.cc:404-437 | every cleanup with other data or another callback stays registered as often as before |
| PoolCleanups.KilledNewest | core/mem/SPRuntimeMemPool.cc:407-420 | the first cleanup in the list with this data and this callback is the one taken, and the list is one shorter if and only if there is one |
| PoolCleanups.KillUndoesRegister | core/mem/SPRuntimeMemPool.cc:369-437 | killing what was just registered restores both lists if and only if no pre-cleanup matches |
| PoolCleanups.KillUndoesPreRegister | core/mem/SPRuntimeMemPool.cc:387-437 | killing what was just pre-registered restores both lists if and only if no cleanup matches |
| PoolCleanups.KillTakesBoth | core/mem/SPRuntimeMemPool.cc:404-437 | a pre-cleanup and a cleanup that match are both lost |
| PoolPlans.GrownPlan | core/mem/SPRuntimeMemPool.cc:306-319 | a new first child of the pool at a path is a new first child there in the plan |
| PoolPlans.PrunedPlan | core/mem/SPRuntimeMemPool.cc:321-345 | the forest without the pool at a path is the plan without what is there |
| PoolPlans.RewrittenPlan | core/mem/SPRuntimeMemPool.cc:249-437 | clearing the pool at a path, or changing its cleanups, is doing so in the plan |
| PoolPlans.WhatsAll | core/mem/SPRuntimeMemPool.cc:72-97 | the cleanups in the log of a destruction are those of the plan: for each pool its pre-cleanups, all below, its cleanups |
| PoolWorlds.Locate | core/mem/SPRuntimeMemPool.cc:306-332 | following child and sibling links along a path ends at the pool that the plan has there, or nowhere |
| PoolWorlds.Run | core/mem/SPRuntimeMemPool.cc:72-437 | from any tree of pools, any sequence of children made, pools destroyed and cleared, blocks taken, cleanups registered and killed, anywhere in it, does to the tree what it does to the plan and runs exactly the plan's cleanups in its order; tree and house stand at the end |
| PoolWorlds.RunNew | core/mem/SPRuntimeMemPool.cc:72-437 | the same from a root pool just created |
| ShaPad.PadLength | src/SPRuntimeHash.cpp:330-350 | the padded message is a whole number of blocks |
| ShaPad.PadSmall | src/SPRuntimeHash.cpp:330-350 | with blocks of 64 bytes the padding is that of section 5.1.1 of FIPS 180-4 |
| ShaPad.PadWide | src/SPRuntimeHash.cpp:489-511 | with a wider length field it is the standard's if and only if the message has less than 2^64 bits |
| ShaStandard.StandardPadIs | src/SPRuntimeHash.cpp:330-350 | the standard's padding: the message, a one bit, as few zero bytes as make whole blocks, and last its length in bits as a number |
| ShaPad.FoldAppend | src/SPRuntimeHash.cpp:304-328 | hashing whole blocks first and the rest later is hashing all at once |
| ShaWords.Ch32 | src/SPRuntimeHash.cpp:241-241 | the source's Ch is the standard's |
| ShaWords.Maj32 | src/SPRuntimeHash.cpp:242-242 | the source's Maj is the standard's |
| ShaWords.Ch64 | src/SPRuntimeHash.cpp:402-402 | the same for 64 bits |
| ShaWords.Maj64 | src/SPRuntimeHash.cpp:403-403 | the same for 64 bits |
| ShaWords.F1 | src/SPRuntimeHash.cpp:30-30 | SHA-1's first function is the standard's Ch |
| ShaWords.F3 | src/SPRuntimeHash.cpp:32-32 | SHA-1's third function is the standard's Maj |
| ShaWords.LoadStore32 | src/SPRuntimeHash.cpp:229-239 | a 32-bit word stored as bytes is loaded back |
| ShaWords.StoreLoad32 | src/SPRuntimeHash.cpp:229-239 | four bytes loaded as a word are stored back |
| ShaWords.LoadStore64 | src/SPRuntimeHash.cpp:392-400 | a 64-bit word stored as bytes is loaded back |
| ShaWords.StoreLoad64 | src/SPRuntimeHash.cpp:392-400 | eight bytes loaded as a word are stored back |
| ShaWords.SigmaOfOne | src/SPRuntimeHash.cpp:245-248 | where the four 32-bit functions put a single bit |
| ShaWords.SumOfOne | src/SPRuntimeHash.cpp:406-409 | where the four 64-bit functions put a single bit |
| ShaWords.Store32Is | src/SPRuntimeHash.cpp:237-239 | the bytes stored for a word, weighted by the powers of 256, are the word |
| ShaWords.Store64Is | src/SPRuntimeHash.cpp:392-394 | the same for 64 bits |
| ShaStream.HashLast | src/SPRuntimeHash.cpp:330-350 | the one or two last blocks that finish the padded message from any point |
| ShaStream.WriteWords | src/SPRuntimeHash.cpp:352-355 | the loop over the state writes the bytes of all its words, in order |
| Sha2Stream.CompressBlock | src/SPRuntimeHash.cpp:250-287 | loading, schedule, rounds and feedback are the block function on the bytes of the block |
| Sha2Stream.ShaContext.Process | src/SPRuntimeHash.cpp:304-328 | however a message is split, the context stands for the whole of it |
| Sha2Stream.ShaContext.Done | src/SPRuntimeHash.cpp:330-356 | the bytes written are those of the state of the whole message, padded and hashed at one go |
| Sha2Digests.AlikeDigest | src/SPRuntimeHash.cpp:241-287 | word functions that agree with the standard's on all words give the standard's digest of every message |
| Sha2Digests.HashOfIs | src/SPRuntimeHash.cpp:250-328 | folding the block function is computing the hash values of section 6.2.2 of FIPS 180-4 one by one, word by word |
| ShaConstants.PrimeAtIs | src/SPRuntimeHash.cpp:209-223 | the primes meant by the tables: each is prime and has exactly as many smaller primes as its place says |
| ShaConstants.RoundKeys256 | src/SPRuntimeHash.cpp:209-223 | the round constants are the first 32 bits of the fractions of the cube roots of the first 64 primes |
| ShaConstants.RoundKeys512 | src/SPRuntimeHash.cpp:369-386 | the first 64 bits of the fractions of the cube roots of the first 80 primes |
| ShaConstants.StartValues256 | src/SPRuntimeHash.cpp:291-302 | the first 32 bits of the fractions of the square roots of the first eight primes |
| ShaConstants.StartValues512 | src/SPRuntimeHash.cpp:450-461 | the same with 64 bits |
| ShaConstants.RoundKeys1 | src/SPRuntimeHash.cpp:34-37 | the square roots of 2, 3, 5 and 10 in units of 2^-30 |
| ShaConstants.StartValues1 | src/SPRuntimeHash.cpp:121-127 | the five words of section 5.3.1 |
| Sha2Digests.Sha256Pieces | src/SPRuntimeHash.cpp:291-356 | for every message in any pieces, the 32 bytes written are the SHA-256 digest of sections 5.1.1 and 6.2 of FIPS 180-4 |
| Sha2Digests.Sha512Pieces | src/SPRuntimeHash.cpp:450-517 | for every message of less than 2^64 bits in any pieces, the 64 bytes written are the SHA-512 digest of sections 5.1.2 and 6.4 of FIPS 180-4 |
| Sha1Rounds.Transform | src/SPRuntimeHash.cpp:52-96 | the schedule, the eighty rounds and the feedback are the standard's block function |
| Sha1Rounds.SwapBytes | src/SPRuntimeHash.cpp:99-119 | on a little-endian machine every word's bytes are reversed in place, on another nothing changes |
| Sha1Rounds.NativeOfTurned | src/SPRuntimeHash.cpp:56-56 | a word read natively after that is the big-endian word of the original bytes, in either byte order |
| Sha1Stream.AddCountExact | src/SPRuntimeHash.cpp:135-139 | count_hi:count_lo is eight times the length modulo 2^64 |
| Sha1Stream.LocalFromCount | src/SPRuntimeHash.cpp:171-173 | the position in the block can be read off the bit count |
| Sha1Stream.Sha1Context.Process | src/SPRuntimeHash.cpp:132-165 | however a message is split, the context stands for the whole of it |
| Sha1Stream.Sha1Context.Done | src/SPRuntimeHash.cpp:167-195 | the bytes written are those of the state of the whole message, padded and hashed at one go |
| Sha1Digests.TempsAgree | src/SPRuntimeHash.cpp:47-49 | a round's new word, with the source's functions and order of addition, is the standard's |
| Sha1Digests.Sha1Pieces | src/SPRuntimeHash.cpp:121-195 | for every message in any pieces and either byte order, the 20 bytes written are the SHA-1 digest of sections 5.1.1 and 6.1 of FIPS 180-4 |
| ShaRounds.PlainRounds | src/SPRuntimeHash.cpp:272-284 | the moving registers of SHA-256 compute the standard's rounds |
| ShaRounds.UnrolledRounds | src/SPRuntimeHash.cpp:433-442 | the unrolled rounds of SHA-512, which move no register, compute the standard's rounds |
| ShaRounds.Compress | src/SPRuntimeHash.cpp:411-446 | schedule, rounds and feedback are the standard's block function, in either form |
| Calendar.DayNumberCounts | core/runtime_core_time.cpp:84-103 | the reference is 0 on 1 January 1970 and one more on each next day, for every year |
| Calendar.GetiExact | core/runtime_core_time.cpp:84-103 | for every valid date the March-based count is the reference if and only if its March-year is not negative, or is not a leap year after -300, or is one from -300 back |
| Calendar.GetiIsDayNumber | core/runtime_core_time.cpp:84-103 | the March-based count is the reference for every date from 1900 on |
| Calendar.GetiBefore1900 | core/runtime_core_time.cpp:84-103 | a date before 1900 for which it is one day off |
| Calendar.YearToDaysIs | core/runtime_core_time.cpp:780-838 | the fast path and the 400-year cycles agree with the reference, leap flag included, for every year |
| Calendar.TmToSecsIs | core/runtime_core_time.cpp:840-861 | for every input, months out of range included, the result is the reference day in seconds plus the time of day |
| Calendar.GetiAgrees | core/runtime_core_time.cpp:84-103 | the two algorithms agree from 1900 on |
| Calendar.IsLeapIs | core/runtime_core_time.cpp:863-870 | right for every 32-bit year, without overflow |
| Calendar.WeekNumIsIso | core/runtime_core_time.cpp:872-898 | the ISO 8601 week of the day's Thursday, for every year, day of the year and weekday |
| DateText.CheckMask | core/runtime_core_time.cpp:136-180 | the comparison loop decides what the mask says of the text |
| DateText.MatchesPlain | core/runtime_core_time.cpp:136-180 | a mask of the reader takes a text if and only if the lengths agree and every character fits its place |
| DateText.CheckMonIsDate | core/runtime_core_time.cpp:251-272 | from 1900 on the rule for days of a month accepts exactly the dates of the Gregorian calendar |
| DateText.FindMonth | core/runtime_core_time.cpp:280-287 | the search of the packed table finds the month with these letters, or that there is none |
| DateReads.MaskLetters | core/runtime_core_time.cpp:136-180 | what the letters that the masks use take, by the characters themselves |
| DateReads.DotsRead | core/runtime_core_time.cpp:415-429 | what `dd.mm.yyyy` reads as: accepted if and only if the year is 1900 or later and the date is valid or has month 00 and a day from 1 to 31; then day, month and year are stored |
| DateReads.DayRead | core/runtime_core_time.cpp:400-414 | the same for `yyyy-mm-dd`, alone or with a zone behind it |
| DateReads.ShortRead | core/runtime_core_time.cpp:478-525 | a day of the month in one digit, alone or behind a heading without digits whose fourth character is no blank: every field is read, and refused exactly when date or time is not valid or before 1900 |
| DateReads.Rfc850Read | core/runtime_core_time.cpp:491-525 | a text of RFC 850, with such a heading or none: two digits of a year stand for 1970 to 2069, and every field is read |
| DateReads.PaddedRead | core/runtime_core_time.cpp:433-461 | a text of `asctime` with a blank before the day |
| DateReads.SpaceBefore | core/runtime_core_time.cpp:364-364 | white space in front of any text is passed over |
| DateForms.Rfc822TextIs | core/runtime_core_time.cpp:585-647 | the text printed is name of the day, comma, day, name of the month, year, time and GMT, spelled out |
| DateForms.CTimeTextIs | core/runtime_core_time.cpp:649-694 | the same for the form of `ctime` |
| DateForms.IsoTextIs | core/runtime_core_time.cpp:696-765 | the same for ISO 8601 without an offset |
| DateTrips.Rfc822RoundTrip | core/runtime_core_time.cpp:361-525 | the printed text fails the earlier masks and matches its own; it is read if and only if date and time are valid and not before 1900, and then all fields come back |
| DateTrips.CTimeRoundTrip | core/runtime_core_time.cpp:361-525 | the same for the text of `encodeCTime` |
| DateTrips.IsoRoundTrip | core/runtime_core_time.cpp:361-525 | the same for the text of `encodeIso8601` with precision 0 |
| DateOffsets.DigitsPrinted | core/runtime_core_time.cpp:635-644 | the hours and minutes of an offset are printed as the right digits if and only if the offset is more than minus one minute; otherwise some character is no digit |
| DateOffsets.FiveHoursWest | core/runtime_core_time.cpp:722-765 | five hours west of GMT is printed as `-0+:00` |
| DateOffsets.IsoOffset | core/runtime_core_time.cpp:311-349 | in ISO 8601 an offset below a hundred hours comes back, in whole minutes, if and only if it is more than minus one minute; all other fields always do |
| DateOffsets.Rfc822Offset | core/runtime_core_time.cpp:311-349 | in RFC 822 form, if and only if its whole minutes are 0 to 7, 80 to 87, or at least 600, because four digits with a leading zero are read as octal |
| DateOffsets.FourIs | include/sprt/runtime/stringview.h:1162-1192 | the number that four digits are read as with base 0 |
| DateOffsets.HalfPastFiveEast | core/runtime_core_time.cpp:311-349 | +0530 is read as 13440 seconds |
| DateTrips.EncodeRfc822 | core/runtime_core_time.cpp:585-647 | the buffer holds a prefix of the text and its NUL, the rest of it is untouched, and the result counts what was written |
| DateTrips.EncodeCTime | core/runtime_core_time.cpp:649-694 | the same |
| DateTrips.EncodeIso8601 | core/runtime_core_time.cpp:696-765 | the same, for precision 0 |
| DateTrips.PrintedWhole | core/runtime_core_time.cpp:585-765 | a buffer that is large enough holds the whole text, its NUL, and the result is its length |
| DateTrips.SizesSuffice | include/sprt/runtime/utils/time.h:34-38 | the declared buffer sizes are large enough, for every offset |
| Base64.RoundTrip | core/runtime_core_base64.cpp:62-123 | the one decoder inverts both encoders on every byte string |
| Base64.Tolerant | core/runtime_core_base64.cpp:91-123 | characters outside both alphabets may stand anywhere |
| Base64.EncodeFits | core/runtime_core_base64.cpp:125-137 | the declared encoded size is exact with padding and enough without |
| Base64.DecodeFits | core/runtime_core_base64.cpp:154-166 | the declared decoded size is always enough, so the unchecked branch never overruns |
| Base64.MakeEncode | core/runtime_core_base64.cpp:62-89 | the loop writes the encoding, with or without padding |
| Base64.EncodeInto | core/runtime_core_base64.cpp:125-137 | bounded output of either encoder is exactly a prefix of the encoding: all, or as much as fits |
| Base64.DecodeInto | core/runtime_core_base64.cpp:154-166 | bounded output is exactly a prefix of the decoded bytes: all, or as many as fit |
| Base64Standard.EncodeCharIs | core/runtime_core_base64.cpp:31-32 | the characters written are those of tables 1 and 2 of RFC 4648, given as text |
| Base64Standard.DecodeCharIs | core/runtime_core_base64.cpp:38-55 | a byte has the value v if and only if it is the letter for v in one of the tables, and no value if it is in neither |
| Base64Standard.GroupsAre | core/runtime_core_base64.cpp:62-89 | each three bytes, as one number of 24 bits, are the four values written for them, and one or two last bytes are the values written with zero bits added |
| Base64Standard.BytesAre | core/runtime_core_base64.cpp:91-123 | each four values are three bytes; of a shorter rest two values are one byte, three are two, and one is none, whatever the bits left over |
| Base64Standard.EncodeIs | core/runtime_core_base64.cpp:62-89 | a letter for each value and then the padding, to a multiple of four characters or none |
| Base64Standard.Foobar | core/runtime_core_base64.cpp:62-89 | the sample foobar of section 10 of RFC 4648 |

## Left out

- Red-black tree: keys are an abstract type with a comparator; the node free list, cloning, range erasure and `count` are not modelled.
- RbEngine.RbCore.ReplaceWithin: a node is not replaced by itself; from a node that is no leaf below the old one no tree is left, so the labels stay as they were.
- RbMoves.Swap: only the headers and the nodes below; sizes, comparators and free lists change places without any effect on the links. `move_from` clears its target first, which is not modelled.
- Punycode: `punycode_encode` takes a callback, modelled as the sequence of bytes written; the UTF-8 and UTF-16 wrappers, the ToASCII rules and the tables are not modelled, and strings are at most 2^32 - 1 long.
- Hash table: the hash function is a parameter of the table and `hash & max` is the remainder modulo max + 1, which a power of two makes the same; keys are compared by content and their pointers, lengths of -1 and the iterator embedded in the table are not modelled; bucket counts do not wrap at 2^32, and memory that `palloc` leaves uninitialised is null. The callbacks of `merge` and `foreach` have no side effects.
- Allocators.Allocator.Free: a free list is a sequence, so the `next` links of the list handed in and of cached nodes are not modelled; each operation is atomic and the system never refuses memory (the source does not check).
- Allocators.Allocator.Alloc: the same, and a node leaves its bucket by position instead of through a cursor into the links.
- Pool: over-aligned requests; `calloc`, `pmemdup`, `pstrdup`; user data.
- Pools.Pool.PAlloc: block addresses are a node and an offset, so that blocks of different nodes are disjoint is taken from the system allocator.
- ReuseCaches.AllocManager.Free: callers give blocks back with the size they were granted, blocks below the threshold of 256 bytes, which `Pool::alloc` takes straight from the pool, are not tracked, and the cache and its records are a sequence and a counter, not linked lists.
- PoolWorlds.Run: the root pool is not destroyed inside a run; requests to the reuse cache are in `ReuseRuns` alone.
- PoolTrees.Destroy: cleanups do not register other cleanups or touch the tree while they run; all pools of a tree use one allocator, and the destruction of an allocator by the pool that owns it is only modelled as `Allocators.Allocator.Destroy`.
- PoolCleanups.Kill: a cleanup list is a sequence and the recycled records a counter, so the links of the records are not modelled.
- SHA: `sha_transform` is a loop of eighty rounds where the source writes them out; bit counts of SHA-256 and SHA-512 are numbers modulo 2^64.
- Sha2Digests.Sha512Pieces: from 2^64 bits on the code's digest is not the standard's, because the padding differs.
- Calendar: 32-bit overflow of the day count, time zones, `ltz_geti` and `strftime`, which rest on the platform's zone data.
- DateOffsets.IsoOffset: offsets of a hundred hours and more, of which the source prints other characters than digits too.
- DateTrips.EncodeIso8601: precision 0 only; a fraction is a rounded double, and what a fraction is read as is a parameter of the reader.
- DateText.ReadText: `read` is a function from the old structure to the new one, whether it succeeds or not, instead of a method that assigns the fields one by one.
- Base64: the callback wrappers; base16.
- pthread primitives, system calls, dynamic loading, logging: they rest on headers and platform calls that are not part of this model. URL and path handling and UTF conversion rest on the string-view templates and the Unicode tables, which are not part of this model either.
