# Verified models of the ordered-key indexes

The repository holds a family of ordered-key indexes for persistent memory. Each of them must behave as a sorted map,
and each rests on an invariant that its code relies on but nowhere states in full. The modules here model these
indexes in Dafny and prove the invariants and what follows from them:

- **Streaming fit and PGM-index** (`Geometry`, `Hulls`, `PiecewiseLinear`, `Segmentation`, `PgmLevels`, `PgmIndex`,
  `PgmLimits`): the convex-hull algorithm accepts a point exactly when one line can stay within epsilon of all points,
  so its segmentation is the shortest possible. The search range of the multi-level index contains every key that is
  there, repeated keys included, with rounding, truncation and capping counted; what the range promises beyond that is
  stated exactly.
- **Dynamic PGM-index** (`DynamicPgm`, `UsedLevels`): the log-structured merge of sorted levels. A counting invariant
  makes every merge target empty, which is what leaves the merged run in the right scratch buffer; the index is a map.
- **CLevel** (`Bits`, `SortBuffers`, `PackedNodes`, `CLevelTrees`, `CLevelNodes`, `CLevels`): node buffers sorted by a
  permutation of slot numbers in a 64-bit header, and the B+ tree over them with splits, root growth, deletes and
  iteration.
- **BEntry and BLevel** (`BEntries`, `BLevels`): an unsorted buffer in front of a CLevel, the iterator that merges
  them, and the construction of prefix-compressed entries from pairs in key order.
- **ALEX** (`GappedArrays`, `AlexBitmaps`, `AlexDataNodes`, `LeafLists`, `LeafOrders`, `AlexModelNodes`, `FanoutTrees`,
  `AlexMerges`): the gapped array with its bitmap search, shifting inserts, rebuilds and erasures for any prediction
  function; the runs of child pointers in model nodes and the linked list of leaves under expansion, sideways splits
  along a fanout tree, and merges sideways and upwards.
- **FAST/FAIR** (`FastFair`): every single store of an insert, a removal and a split, as seen by readers in both
  directions and through sibling links.
- **letree** (`SortBuckets`, `Parts`, `PointerBEntries`, `LetreeGroups`, `Letrees`): the three-layer router with bucket
  splits and two kinds of rebuild, as an insert-only map for any monotone model.
- **Slab** (`Slab`): the concurrent allocator over all interleavings of its two locked sections.

`Entries` defines sorted sequences of entries and the map they stand for; `Numbers` and `Powers` hold arithmetic. Classes
of the source that update their fields are classes here, with methods proved against functions of their contents; loops
are loops. Structures that the source links by offsets into a memory region (the CLevel nodes) are sequences indexed by
offset. Epsilons, level numbers, capacities and models are parameters wherever the source lets them vary. What the
source draws from outside (trained models, cost decisions, key limits) is a parameter of the method that uses it.

`dafny verify dfyconfig.toml` checks the whole project.

Where code and comments disagree, the model follows the code:

- A PGM search range can have 2 epsilon + 2 positions, although the class comment gives 2 epsilon + 1
  (include/learnindex/pgm_index.hpp:46-47). `PgmIndex.Search` states when; `PgmLimits.WideRange` builds such indexes on
  arrays of every length from 2 epsilon + 2 on.
- For an absent key the comment promises that the range holds a key not less than it, or reaches the end of the array
  if there is none (include/learnindex/pgm_index.hpp:48-49). The range may instead end just before the first such key
  (`PgmLimits.BehindRange`), and before the end of the array when the last key repeats (`PgmLimits.BeyondRepeats`).
  `PgmIndex.AbsentFound` says for which segments the promise is kept: those whose stored line is at most epsilon under
  the position of the key before the missing one. `PgmIndex.KeptInGaps` makes this a test of the index: it keeps the
  promise for all keys if and only if it does so for the least missing key of every gap. A key that is there is always
  found, and unless the last key repeats the lower bound is never beyond the end of the range, so a binary search in
  the range is right.
- `remove_key` and `insert_key` of FAST/FAIR take the pointers of neighbouring entries to differ. When the entries
  around a removed one share a pointer, the second of them is lost to readers (`FastFair.RemovalReads`); an inserted
  pointer that a neighbour has hides an entry (`FastFair.InsertionReads`).
- `used_levels` is to be one above the last level that holds anything (include/learnindex/pgm_index_dynamic.hpp:66).
  Filling the buffer twice with the same keys leaves it one too high (`UsedLevels.InsertTwice`);
  `UsedLevels.ExactAfterBuffer` and `UsedLevels.ExactAfterMerge` state when an insert leaves it right. The map is not
  affected. As the target of a merge is always empty (`DynamicPgm.TargetEmpty`), `merge<true>` is never reached from
  `insert` (include/learnindex/pgm_index_dynamic.hpp:129-133).
- `group::bulk_load` sets the least key of every group to the first key of the whole data (src/letree.h:92, 108), so the
  fast lookup rules out less than it could; it never returns a wrong value.

## Model

| member | source | states |
|---|---|---|
| `PiecewiseLinear.OptimalPiecewiseLinearModel.AddPoint` | include/learnindex/piecewise_linear_model.hpp:117-212 | returns true exactly when some line passes within epsilon of the new point and of every point of the open segment (soundness and optimality in one); fails exactly on an abscissa that does not increase, and then changes nothing; a rejection closes the segment and keeps what was fitted |
| `PiecewiseLinear.OptimalPiecewiseLinearModel.GetSegment` | include/learnindex/piecewise_linear_model.hpp:214-218 | the segment of the points accepted since the last rejection, or up to it: its rectangle is fitted to exactly these points and it starts at the first one |
| `PiecewiseLinear.OptimalPiecewiseLinearModel.TurnSteepest` | include/learnindex/piecewise_linear_model.hpp:159-181 | the first update turns the steepest line down to the new upper bound; the flattest line, the chains and the accepted points again satisfy the halfway invariant |
| `PiecewiseLinear.OptimalPiecewiseLinearModel.TurnFlattest` | include/learnindex/piecewise_linear_model.hpp:183-205 | the second update lifts the flattest line to the new lower bound; the full hull invariant holds for the accepted points and the new one |
| `PiecewiseLinear.ScanLower` | include/learnindex/piecewise_linear_model.hpp:160-173 | stopping at the first increase still finds the tangent from the new point over the whole rest of the lower chain |
| `PiecewiseLinear.ScanUpper` | include/learnindex/piecewise_linear_model.hpp:184-197 | the same for the upper chain, stopping at the first decrease |
| `PiecewiseLinear.TrimUpper` | include/learnindex/piecewise_linear_model.hpp:175-180 | the upper chain with the new point is concave again, and no constraint that a line must meet is lost |
| `PiecewiseLinear.TrimLower` | include/learnindex/piecewise_linear_model.hpp:199-204 | the same for the lower chain |
| `PiecewiseLinear.ExtremesFit` | include/learnindex/piecewise_linear_model.hpp:149-212 | soundness: under the hull invariant the lines through rectangle corners 0, 2 and 1, 3 pass within epsilon of every accepted point |
| `PiecewiseLinear.Extremal` | include/learnindex/piecewise_linear_model.hpp:149-157 | every line that fits the accepted points has a slope between the two extreme lines and runs between them beyond the last point |
| `PiecewiseLinear.Rejected` | include/learnindex/piecewise_linear_model.hpp:149-157 | optimality: a new point outside the extreme lines cannot be fitted together with the accepted ones by any line |
| `PiecewiseLinear.Tests` | include/learnindex/piecewise_linear_model.hpp:149-159 | the cross-multiplied integer comparisons of the method decide the position of the new point against the extreme lines |
| `PiecewiseLinear.IntersectionOnBoth` | include/learnindex/piecewise_linear_model.hpp:250-267 | the computed intersection lies on both extreme lines when their slopes differ |
| `PiecewiseLinear.SegmentFits` | include/learnindex/piecewise_linear_model.hpp:250-287 | whatever origin the caller picks, the slope and intercept read from a fitted rectangle give a line within epsilon of every point it was fitted to |
| `PiecewiseLinear.SegmentClimbs` | include/learnindex/piecewise_linear_model.hpp:269-287 | over growing ordinates the slope handed out is positive |
| `Hulls.TangentSound` | include/learnindex/piecewise_linear_model.hpp:159-181 | the sight line at the tangent point is the new extreme line: it meets every constraint, and every line that meets them all is at most as steep |
| `Hulls.PopDominates` | include/learnindex/piecewise_linear_model.hpp:175-180 | a chain point under the chord to the new point constrains no line that the remaining points allow |
| `Hulls.SightClimbs` | include/learnindex/piecewise_linear_model.hpp:163-169 | once the sight lines along a concave chain start to climb they climb to its end, which is why the scan may stop |
| `Segmentation.MakeSegmentation` | include/learnindex/piecewise_linear_model.hpp:290-319 | succeeds exactly on sorted input; then the segments cover the first point of every run of equal abscissas, each within epsilon, and no segment could have been longer |
| `Segmentation.FewestSegments` | include/learnindex/piecewise_linear_model.hpp:290-319 | the emitted pieces are themselves a division of the points into pieces that each fit some line, and no such division has fewer: the minimum is attained |
| `PgmIndex.Build` | include/learnindex/pgm_index.hpp:81-125 | for any non-decreasing keys in which the reserved largest value occurs at most once, at the end: levels that each model the keys of the one below (the bottom one the first positions of the runs of equal keys) within epsilon, ending in a single segment; it only fails when an intercept would exceed 32 bits |
| `PgmLevels.BuildLevel` | include/learnindex/pgm_index.hpp:93-111 | one level: the segments of the level below, an extra flat segment when the last slope is zero, and the sentinel |
| `PgmLevels.LevelShrinks` | include/learnindex/pgm_index.hpp:116-122 | every further level is strictly smaller, so building ends |
| `PgmLevels.PredictBounds` | include/learnindex/pgm_index.hpp:397-415 | rounding the intercept and truncating the product move a prediction by less than 1.5 down and at most 0.5 up |
| `PgmLevels.LevelAccurate` | include/learnindex/pgm_index.hpp:176-179 | the capped prediction of a responsible segment is at most epsilon + 2 under and epsilon over the ordinate of the last point up to the sought key, and at most epsilon over that of a point that is there |
| `PgmLevels.LevelReaches` | include/learnindex/pgm_index.hpp:397-415 | a capped and truncated prediction reaches a position up to epsilon below the next ordinate if and only if the stored line does |
| `PgmIndex.PresentRank` | include/learnindex/pgm_index.hpp:46-50 | the point of a key that is there, as the duplicate rule of the build makes it, has the position of its first occurrence |
| `PgmIndex.AbsentRank` | include/learnindex/pgm_index.hpp:102-109 | the lower bound of a key that is not there is one above the position of the last point below it, also between repeated keys, unless it lies beyond a last key that repeats |
| `PgmIndex.RightmostBottom` | include/learnindex/pgm_index.hpp:161-194 | on the bottom level a segment that starts at or below the key is the rightmost such one, whichever search found it: no two of its segments have equal keys |
| `PgmIndex.WindowHolds` | include/learnindex/pgm_index.hpp:176-190 | the slack of epsilon + 1 below and epsilon + 2 above always encloses the responsible segment of the level below |
| `PgmIndex.RouteDown` | include/learnindex/pgm_index.hpp:176-192 | from a responsible segment of one level to one of the next, by linear search (then exactly the rightmost starting at or before the key) or by bisection |
| `PgmIndex.SegmentForKey` | include/learnindex/pgm_index.hpp:161-194 | ends in the rightmost bottom segment with key at or below the sought key, for every EpsilonRecursive, zero included, unless the reserved key closes the input and levels are bisected; then in one with the same key |
| `PgmIndex.AbsentFound` | include/learnindex/pgm_index.hpp:48-49 | for a key that is not there the documented promise holds if and only if the stored line of its segment is at most epsilon under the position of the key before it (one more for a key beyond the last one); neither truncation nor the cap ever decides |
| `PgmIndex.GapKeeps` | include/learnindex/pgm_index.hpp:48-49 | a promise kept for a missing key is kept for every greater one between the same two keys, whichever segment the search finds |
| `PgmIndex.KeptInGaps` | include/learnindex/pgm_index.hpp:48-49 | the test of an index: it keeps its promise for all missing keys if and only if it does so for the least one of every gap |
| `PgmIndex.Search` | include/learnindex/pgm_index.hpp:46-50 | a key that is there has its first position inside [lo, hi); for one that is not, the range keeps the documented promise if and only if the key lies below the first one or the line of its segment is high enough; the range has 2 epsilon + 2 positions if and only if neither end is cut off, never more, and never in an array of 2 epsilon + 1 keys or fewer |
| `PgmLimits.WideRange` | include/learnindex/pgm_index.hpp:46-47 | for every epsilon and every longer array: an index and a key whose range has 2 epsilon + 2 positions, one more than documented |
| `PgmLimits.BehindRange` | include/learnindex/pgm_index.hpp:48-49 | an index and an absent key whose range ends before the first key that is not less, which exists |
| `PgmLimits.BeyondRepeats` | include/learnindex/pgm_index.hpp:48-49 | with a last key that repeats, the range of a greater key ends any distance before the array does |
| `DynamicPgm.DynamicPGMIndex.constructor` | include/learnindex/pgm_index_dynamic.hpp:255-259 | an empty index: no key has a value |
| `DynamicPgm.DynamicPGMIndex.Insert` | include/learnindex/pgm_index_dynamic.hpp:207-242 | levels and counter become exactly what inserting into the buffer, or merging up to the chosen target, makes of them; the level invariant (every non-empty level above the buffer holds more than half of its size and at most its size) holds, and the item is the newest one of its key, with no other key changed |
| `UsedLevels.ExactAfterBuffer` | include/learnindex/pgm_index_dynamic.hpp:207-221 | when the buffer takes the item, the counter of used levels is one above the last non-empty level afterwards if and only if it was, or counted no other level |
| `UsedLevels.ExactAfterMerge` | include/learnindex/pgm_index_dynamic.hpp:223-242 | when the buffer overflows, the counter is so afterwards if and only if it was, for a target below the last counted level, and the merged run is too long for the level below, for a target that is the last or a new level |
| `UsedLevels.InsertTwice` | include/learnindex/pgm_index_dynamic.hpp:66 | for every lowest level up to 27: filling the buffer once over and then again with the same keys leaves the counter one above what its comment says |
| `DynamicPgm.DynamicPGMIndex.InsertOrAssign` | include/learnindex/pgm_index_dynamic.hpp:324-326 | afterwards the key maps to the value and all others to what they did; it can only fail when an index would span more than 2^31 positions |
| `DynamicPgm.DynamicPGMIndex.Erase` | include/learnindex/pgm_index_dynamic.hpp:332-333 | afterwards the key maps to nothing and all others to what they did |
| `DynamicPgm.DynamicPGMIndex.Find` | include/learnindex/pgm_index_dynamic.hpp:340-359 | returns the newest value of the key unless it is erased, through the ranges of the level indexes |
| `DynamicPgm.DynamicPGMIndex.FindInLevel` | include/learnindex/pgm_index_dynamic.hpp:345-355 | searching only the range its index gives finds the key in a level exactly if it is there |
| `DynamicPgm.DynamicPGMIndex.ChooseTarget` | include/learnindex/pgm_index_dynamic.hpp:223-230 | the chosen level is empty and has room for everything below it |
| `DynamicPgm.DynamicPGMIndex.MergeLevels` | include/learnindex/pgm_index_dynamic.hpp:121-142 | the ping-pong of the two scratch buffers: after each level the merge of everything so far is in the buffer the parity says; the merged levels and their indexes are cleared |
| `DynamicPgm.DynamicPGMIndex.MergeDown` | include/learnindex/pgm_index_dynamic.hpp:100-144 | the second scratch buffer ends with the full merge of buffer, new item and levels, newest first |
| `DynamicPgm.DynamicPGMIndex.PairwiseMerge` | include/learnindex/pgm_index_dynamic.hpp:100-155 | the merged run lands in the level its size calls for, with an index on its keys, and the invariant holds again |
| `DynamicPgm.TargetEmpty` | include/learnindex/pgm_index_dynamic.hpp:223-241 | counting: with the level invariant the chosen target is empty, and what moves there fits |
| `DynamicPgm.Merge` | include/learnindex/pgm_index_dynamic.hpp:76-98 | the loop writes exactly the merge by key in which the first run wins |
| `DynamicPgm.MergedFind` | include/learnindex/pgm_index_dynamic.hpp:76-98 | looking up in a merge is looking up in the newer run first; with SkipDeleted a tombstone and the item it hides vanish together |
| `DynamicPgm.FoldFind` | include/learnindex/pgm_index_dynamic.hpp:121-142 | newest-first search over the levels agrees with a search in their merge |
| `DynamicPgm.MergedFits` | include/learnindex/pgm_index_dynamic.hpp:144-149 | the merged run has the size its level demands, at or below the chosen target and above all merged levels |
| `Bits.LshiftNibbles` | src/sortbuffer.h:17-22 | the rotation to the left by masks, shifts and exclusive or is a rotation of the header nibbles; a shift by 64 counts as 0 |
| `Bits.RshiftNibbles` | src/sortbuffer.h:24-29 | the same to the right |
| `SortBuffers.JoinSuffix` | src/sortbuffer.h:69-100 | a key is rebuilt exactly from its stored suffix and any key with the same high bytes |
| `SortBuffers.JoinCompare` | src/sortbuffer.h:125-158 | comparing with the target as prefix donor is comparing suffixes |
| `SortBuffers.SlotsFit` | src/sortbuffer.h:61-67 | within the capacity the key area and the value area never meet |
| `SortBuffers.TopSlotFree` | src/sortbuffer.h:167-178 | before a put with room left the slot at the top of the permutation is usable and free |
| `SortBuffers.SortBuffer.constructor` | src/sortbuffer.h:33-59 | a fresh buffer is empty, and its header is a permutation with the unusable slots just above the used ones |
| `SortBuffers.SortBuffer.Find` | src/sortbuffer.h:125-143 | binary search: the rank of the key and whether it is there |
| `SortBuffers.SortBuffer.FindLE` | src/sortbuffer.h:145-158 | linear search: the last position not above the key, and whether it is there |
| `SortBuffers.SortBuffer.Put` | src/sortbuffer.h:167-178 | inserts the suffix and value at the sorted position; the header stays a permutation and nothing is overwritten |
| `SortBuffers.SortBuffer.Update` | src/sortbuffer.h:180-185 | replaces one value |
| `SortBuffers.SortBuffer.Delete` | src/sortbuffer.h:191-199 | removes one position from the sorted sequence; its slot is the next one to be used |
| `SortBuffers.SortBuffer.CopyData` | src/sortbuffer.h:201-208 | the fresh destination reads as the tail of the sorted sequence |
| `SortBuffers.SortBuffer.DeleteData` | src/sortbuffer.h:210-213 | what remains is the front of the sorted sequence; with the copy, a split conserves the entries |
| `SortBuffers.SortBuffer.FromKVBuffer` | src/sortbuffer.h:215-235 | an unsorted buffer read through its sorted index becomes the sorted sequence, with all other slots free |
| `CLevelNodes.PutChild` | src/clevel.cc:9-16 | the child address is added under its separator in key order |
| `CLevelNodes.SplitLeaf` | src/clevel.cc:34-67 | both halves together hold the leaf’s entries, the chain runs through the new leaf, the parent (or a new root) knows it, and nothing else changes |
| `CLevelNodes.SplitIndex` | src/clevel.cc:77-113 | the middle separator goes up, the leaves of the two halves are those of the node in order |
| `PackedNodes.NewBuffer` | src/clevel.h:144-155 | the buffer of a new node is an empty packed one, ready to be split into |
| `PackedNodes.PutLeaf` | src/clevel.cc:22-32 | the packed buffer of a leaf comes to hold the node’s entries with the new one put, over an equal key or as a new entry |
| `PackedNodes.PutNew` | src/clevel.cc:9-16 | the packed buffer of an index node comes to hold the child under its separator |
| `PackedNodes.Get` | src/clevel.cc:131-141 | searching the packed buffer finds what the node’s entries hold |
| `PackedNodes.Delete` | src/clevel.cc:143-150 | the packed buffer loses exactly the entry of the key |
| `PackedNodes.SplitLeaf` | src/clevel.cc:34-53 | copying to a fresh buffer and cutting the old one leaves the two halves of the node’s entries, and the separator rebuilt from the first of the upper half |
| `PackedNodes.SplitIndex` | src/clevel.cc:77-98 | the same for an index node: the middle entry leaves both buffers as separator and first child |
| `CLevelNodes.PutNode` | src/clevel.cc:21-117 | the recursive put returns a tree of the same leaf depth, or two halves known to the parent, with every node below its capacity, separators bounding the subtrees, and exactly one leaf changed by the entry |
| `CLevelNodes.FindLeaf` | src/clevel.h:68-77 | the search path ends in the leaf whose range holds the key |
| `CLevelNodes.FindHead` | src/clevel.h:79-86 | the leftmost path ends in the first leaf of the chain |
| `CLevelTrees.TidySorted` | src/clevel.h:27-66 | a tree in order lists its entries in ascending key order, each leaf below capacity |
| `CLevelTrees.PutLeavesContents` | src/clevel.cc:22-73 | changing or splitting the leaf for a key puts the entry into the sequence of all entries |
| `CLevels.CLevel.Setup` | src/clevel.cc:160-168 | an empty tree in fresh nodes |
| `CLevels.CLevel.SetupWith` | src/clevel.cc:170-183 | a tree with the entries of a buffer that is not full |
| `CLevels.CLevel.Put` | src/clevel.cc:185-195 | the tree is in order and the map is the old one with the key put, for all keys; only nodes of this tree and new ones changed |
| `CLevels.CLevel.Get` | src/clevel.cc:131-141 | the value of the map, or none |
| `CLevels.CLevel.Update` | src/clevel.cc:119-129 | overwrites exactly when the key is there |
| `CLevels.CLevel.Delete` | src/clevel.cc:143-150 | returns the old value and removes the key from the map; empty leaves are allowed |
| `CLevels.Iter.Begin` | src/clevel.h:218-225 | the rest to come is all entries |
| `CLevels.Iter.constructor` | src/clevel.h:192-216 | the rest to come is exactly the ascending entries not below the start key |
| `CLevels.Iter.Next` | src/clevel.h:236-247 | drops the first of the rest; false exactly at the end |
| `CLevels.Iter.SkipEmpty` | src/clevel.h:202-214 | following successor links over empty leaves loses nothing |
| `BEntries.BEntry.Put` | src/bentry.cc:27-49 | puts a key that is not there at the end of the buffer; the buffer moves to the tree first if and only if it has no room (without a tree, room for one less), and otherwise tree and nodes stay as they are |
| `BEntries.BEntry.FlushToCLevel` | src/bentry.cc:87-104 | moves the buffer to the tree, changing neither the map nor nodes of other trees |
| `BEntries.BEntry.Get` | src/bentry.cc:64-73 | the value of the map, or none |
| `BEntries.BEntry.Update` | src/bentry.cc:51-62 | overwrites exactly when the key is in buffer or tree, and only where it is |
| `BEntries.BEntry.Delete` | src/bentry.cc:75-85 | returns the old value and removes the key from the map, also when the last buffered entry takes its place |
| `BEntries.BEntry.Find` | src/kvbuffer.h:93-102 | the last buffered position with the key, or the number of entries |
| `BEntries.GetSortedIndex` | src/kvbuffer.h:218-234 | a permutation that lists the buffer in key order |
| `BEntries.MergeMeans` | src/bentry.h:110-130 | merging two sorted sequences without a common key is sorted and stands for both maps |
| `BEntries.MergeIsPutAll` | src/bentry.h:56-134 | walking the merge of buffer and tree lists exactly the map of the entry |
| `BEntries.Iter.Begin` | src/bentry.h:58-73 | the rest to come is all entries in key order |
| `BEntries.Iter.constructor` | src/bentry.h:75-102 | the rest to come is exactly the entries not below the start key |
| `BEntries.Iter.Next` | src/bentry.h:112-130 | drops the first of the rest; false exactly at the end |
| `BLevels.CommonPrefixIs` | src/blevel.cc:27-31 | counting the leading zeros of the exclusive or gives the largest number of leading bytes in which two words agree |
| `BLevels.SharedPrefix` | src/blevel.cc:190-196 | every key from an entry key up to the next one shares their common leading bytes |
| `BLevels.Lossless` | src/kvbuffer.h:42-68 | suffixes joined with the entry’s prefix are the original keys |
| `BLevels.LookupCompressed` | src/kvbuffer.h:42-68 | looking a suffix up among suffixes is looking the key up among keys |
| `BLevels.FlushToEntry` | src/blevel.cc:73-122 | a new entry holds exactly the waiting pairs, for any number below the capacity of its buffer |
| `BLevels.ExpandData.ExpandPut` | src/blevel.cc:190-216 | takes one more pair: all pairs so far are in the entries and the buffer, in order, each in exactly one place, with strictly increasing entry keys; every entry but the last of as many as there is room for took exactly a full buffer, begins at its first pair’s key (the first one at the first key of all) and keeps the bytes that its key shares with its bound |
| `BLevels.ExpandData.ExpandFinish` | src/blevel.cc:218-237 | all pairs are in entries, none of them empty, and all but the last took exactly a full buffer |
| `BLevels.Expansion` | src/blevel.cc:239-255 | the entries’ shares, joined, are the given pairs; the first entry begins at key 0, every other at its first pair’s key, each with the suffix length that its range allows; a new entry starts exactly when a full buffer waits, until there is room for no more; no pairs, no entries |
| `BLevels.FoundInEntry` | src/blevel.cc:190-237 | looking a key up among all pairs equals looking its suffix up in the entry whose range holds it |
| `BLevels.Find` | src/blevel.cc:802-816 | the last entry whose key is not above the given one |
| `BLevels.Get` | src/blevel.cc:884-891 | reading through search, prefix and entry gives the value among all pairs |
| `BLevels.EveryKeyHasEntry` | src/blevel.cc:239-255 | a level built from pairs has an entry for every key below the last one, and that entry holds the key as the pairs do |
| `BLevels.ExpandAndGet` | src/blevel.cc:239-255 | whatever the ascending pairs, as long as there are some, and whatever the key, reading it from the level just built gives what the pairs hold for it, or none |
| `GappedArrays.GappedIsValidated` | include/alex/alex_nodes.h:2293-2342 | the proof’s invariant is equivalent to what the node’s own validation tests |
| `GappedArrays.WithItemMeans` | include/alex/alex_nodes.h:1691-1745 | one pair more, after those with its key, in key order |
| `GappedArrays.WithoutMeans` | include/alex/alex_nodes.h:2223-2258 | exactly the pairs with keys in the range are gone |
| `AlexBitmaps.ClosestGap` | include/alex/alex_nodes.h:1968-2111 | -1 exactly on a full bitmap; otherwise the gap nearest to the position, the left one of two at the same distance, across word boundaries and the partial last word |
| `AlexBitmaps.SearchAdjacent` | include/alex/alex_nodes.h:1985-2067 | the walk over whole words in both directions finds that gap |
| `AlexBitmaps.SearchWithin` | include/alex/alex_nodes.h:2069-2109 | the search in the position’s own word and its neighbours finds that gap |
| `AlexBitmaps.NextFilled` | include/alex/alex_nodes.h:1525-1547 | the first occupied slot from a position on |
| `AlexDataNodes.AlexDataNode.BulkLoad` | include/alex/alex_nodes.h:1166-1243 | for any prediction function the node satisfies the gapped-array invariant and holds exactly the given pairs, each in the slot that the model predicts or the first one after the pair before it, but far enough from the end for the rest; capacity and thresholds follow from the density |
| `AlexDataNodes.AlexDataNode.Resize` | include/alex/alex_nodes.h:1748-1883 | for any density and any new model the contents stay the same, placed again by the new model; capacity and thresholds follow from the density, and afterwards there is room for one more |
| `AlexDataNodes.AlexDataNode.ExponentialSearchUpperBound` | include/alex/alex_nodes.h:1565-1590 | from any guess: the first slot with a greater key |
| `AlexDataNodes.AlexDataNode.ExponentialSearchLowerBound` | include/alex/alex_nodes.h:1622-1646 | from any guess: the first slot with a key not below |
| `AlexDataNodes.AlexDataNode.FindKey` | include/alex/alex_nodes.h:1464-1476 | -1 exactly if the key is not stored; otherwise its last slot, which is occupied |
| `AlexDataNodes.AlexDataNode.FindInsertPosition` | include/alex/alex_nodes.h:1505-1519 | the upper bound, or a gap that only gaps separate from it: the gap nearest to the predicted slot |
| `AlexDataNodes.AlexDataNode.Insert` | include/alex/alex_nodes.h:1688-1745 | every code with its exact condition on the old state; code 0 puts exactly this pair into the slot returned, the wanted one if that is free, and otherwise moves only the slots up to the nearest gap; code -1 returns the last slot of the key that is there, every other code changes nothing and returns no slot; when the node makes room, capacity and thresholds are those of the new size |
| `AlexDataNodes.AlexDataNode.InsertInGap` | include/alex/alex_nodes.h:1723-1727 | storing into the gap puts exactly this pair, and every other item stays in its slot |
| `AlexDataNodes.AlexDataNode.InsertUsingShifts` | include/alex/alex_nodes.h:1920-1963 | shifting towards the nearest gap loses nothing and puts exactly this pair; the slots up to that gap move by one, and no others |
| `AlexDataNodes.AlexDataNode.EraseOneAt` | include/alex/alex_nodes.h:2159-2184 | removes exactly the pair in the slot and moves no other, unless the node contracts, which it does exactly below its threshold |
| `AlexDataNodes.AlexDataNode.Erase` | include/alex/alex_nodes.h:2189-2218 | removes exactly the pairs with the key and counts them, and moves no other, unless the node contracts |
| `AlexDataNodes.AlexDataNode.EraseRange` | include/alex/alex_nodes.h:2223-2258 | removes exactly the pairs in the range and counts them, and moves no other, unless the node contracts |
| `AlexModelNodes.BucketScales` | include/alex/alex_nodes.h:108-112 | scaling model and bucket count by one factor routes every key to the same original bucket |
| `AlexModelNodes.AlexModelNode.Expand` | include/alex/alex_nodes.h:119-142 | every key keeps its child, and every child keeps one aligned run of two to the power of its duplication factor |
| `AlexModelNodes.AlexModelNode.RepeatPointers` | include/alex/alex_nodes.h:121-135 | the loop over runs writes every pointer the right number of times |
| `AlexModelNodes.FanoutParts` | include/alex/alex_fanout_tree.h:349-377 | the positions that a fanout tree cuts a leaf at are those that the parent’s buckets call for |
| `FanoutTrees.MergeNodesUpwards` | include/alex/alex_fanout_tree.h:63-104 | level by level two nodes give way to the one above exactly if both are in use and the costs say so; and whatever the costs decide, over every smallest part exactly one node of the tree stays in use |
| `FanoutTrees.DividedTiles` | include/alex/alex_fanout_tree.h:50-55 | nodes in order with every smallest part under exactly one of them tile the leaf without gap or overlap |
| `FanoutTrees.CollectUsedNodes` | include/alex/alex_fanout_tree.h:38-56 | collected level by level and then sorted: exactly the nodes in use, in order; they tile the leaf, each with the keys of its own part |
| `FanoutTrees.BestFanout` | include/alex/alex_fanout_tree.h:418-434 | the nodes chosen for a leaf are those that merging upwards from the best level leaves in use, and tile it |
| `FanoutTrees.SplitByFanout` | include/alex/alex.h:1638-1680 | choosing the fanout and splitting by it: one new leaf for every chosen node, with the keys of its part and the aligned run of its size; each key of the old leaf is looked up in one of them, all other keys keep their child, and the list of leaves stays linked and in order |
| `LeafLists.LinkNewLeaves` | include/alex/alex.h:1757-1790 | new leaves take the place of the old one in the doubly linked list, in order |
| `LeafLists.Unlink` | include/alex/alex.h:2273-2283 | the leaf that gave way is out of the doubly linked list, whichever side the other one is on |
| `LeafOrders.EdgedDivided` | include/alex/alex.h:1740-1791 | dividing a leaf keeps the list of leaves in the order of the pointers to them |
| `LeafOrders.EdgedAboveDivided` | include/alex/alex.h:1740-1791 | nodes further up stay in that order, too |
| `LeafOrders.EdgedMerged` | include/alex/alex.h:2269-2283 | redirecting the pointers of a leaf to its neighbour and unlinking it keeps the two in the same order |
| `LeafOrders.EdgedAboveAll` | include/alex/alex.h:2216-2319 | so do all nodes further up, whose outermost leaves may have been among those merged |
| `AlexModelNodes.AlexModelNode.SplitSideways` | include/alex/alex.h:1638-1680 | one new leaf for every node in use, or one for each half of the buckets without any, with exactly the keys of its part, in an aligned run of the size of its part; each key is now looked up in the new leaf that holds it, and all other keys keep their child; the list of all leaves stays linked, in the order of the pointers, and lists the same keys |
| `AlexModelNodes.AlexModelNode.CreateNewDataNodes` | include/alex/alex.h:1687-1791 | one new leaf for every node, with the keys of its part; they fill the old leaf’s run with aligned runs of their own sizes, in order, and all other pointers stay |
| `AlexModelNodes.AlexModelNode.MergeBeside` | include/alex/alex.h:2241-2289 | an empty leaf gives its pointers to the leaf with the other half of the aligned block if and only if there is such a leaf, and leaves the list of leaves; otherwise nothing changes |
| `AlexModelNodes.AlexModelNode.MergeSideways` | include/alex/alex.h:2241-2289 | no child that holds keys loses a pointer, runs, routing and the list of leaves stay in order, and an empty leaf that is left has no leaf to merge with |
| `AlexModelNodes.AlexModelNode.MergeUp` | include/alex/alex.h:2291-2318 | replacing a model node by the only leaf under it changes no routing above it |
| `AlexMerges.Merge` | include/alex/alex.h:2216-2319 | the whole alternation along a path: nodes above the last one left are untouched, in that one every child with keys is still there with the leaf in place of the node that gave way, below it only the leaf had keys, routing, runs and the list of leaves are in order on the whole path, no key leaves the list, and nothing is left to merge |
| `FastFair.ReadersAgree` | include/fast-fair/btree.h:672-735 | in a page at rest searches in both directions find the stored mapping, and the count that the second one starts from is that of the entries, whichever way it walks |
| `FastFair.Page.InsertKey` | include/fast-fair/btree.h:418-495 | after every single store readers see the old page or the old page with the new pair, with one switch from the one to the other, and the sibling as it was; the counter turns to counting up if it counted down |
| `FastFair.GrownReads` | include/fast-fair/btree.h:418-495 | after the insert the new key reads the new pointer and every other key what it read before |
| `FastFair.InsertionReads` | include/fast-fair/btree.h:418-495 | an insert into a page at rest is right if and only if the pointer is not a neighbour’s |
| `FastFair.Page.RemoveKey` | include/fast-fair/btree.h:194-232 | for any pointers on the page: from the first store on a reader from the right, who counts down from the old last index, sees the page without the entry; false exactly if the key is not there |
| `FastFair.WithoutReads` | include/fast-fair/btree.h:194-232 | after the removal the key reads nothing and every other key what it read before |
| `FastFair.RemovalReads` | include/fast-fair/btree.h:194-232 | the page without an entry is right, losing this key and no other, if and only if the entries on both sides of it do not share a pointer |
| `FastFair.Page.Split` | include/fast-fair/btree.h:518-554 | after every single store, the one that links the sibling included, every lookup along what is linked at that moment finds what it found before; the sibling gets the upper half and the old sibling behind it, and the counter turns by one step or two |
| `FastFair.SplitUnseen` | include/fast-fair/btree.h:518-554 | the three states of the split are indistinguishable to every lookup |
| `FastFair.Page.Store` | include/fast-fair/btree.h:498-569 | along the siblings, whichever of them the key belongs to, exactly the new mapping is added, with or without a split, and after every single store a reader finds either all of the old mappings or all of the new ones, with one switch; only one page is stored to; the pages stay linked, at rest and in key order |
| `Slab.RunInv` | src/slab.h:30-54 | every state of every interleaving of the two locked sections satisfies the invariant |
| `Slab.NeverTwice` | src/slab.h:30-54 | no slot is ever returned twice, and all lie within their arrays |
| `Slab.RenewedWhenFull` | src/slab.h:30-54 | a new array is started only after every slot of all earlier ones was returned, whatever values the counter went through in between |
| `Slab.NeverStuck` | src/slab.h:30-54 | in every reachable state a slot can be drawn or a renewal will succeed |
| `SortBuckets.SortBucket.PutBufKV` | src/pointer_bentry.h:840-962 | full exactly at capacity; otherwise the records are the sorted ones with the new key |
| `SortBuckets.SortBucket.Put` | src/pointer_bentry.h:1193-1213 | the same with the count, keeping the bucket valid |
| `SortBuckets.SortBucket.Expand` | src/pointer_bentry.h:1083-1128 | the two buckets hold the lower and upper half, the split key is the first of the upper one |
| `SortBuckets.SortBucket.LinearFind` | src/pointer_bentry.h:1161-1168 | the rank of the key and whether it is there |
| `SortBuckets.SortBucket.Get` | src/pointer_bentry.h:1228-1241 | the stored value; zero counts as absent |
| `PointerBEntries.FindPos` | src/pointer_bentry.h:2049-2056 | the last slot whose key is not above the sought one, or the first |
| `PointerBEntries.SplitAt` | src/pointer_bentry.h:2073-2088 | the slot after a split holds the upper half under its first key, all others stay |
| `PointerBEntries.PutInEntry` | src/pointer_bentry.h:2058-2107 | the retry ends: full, with nothing changed, if and only if all slots are taken and the bucket of the key is full; otherwise the pair is put into its bucket, which has split before if and only if it was full; the first key goes down to the key |
| `PointerBEntries.GetInSlots` | src/pointer_bentry.h:2118-2127 | the value among the pairs of the entry |
| `LetreeGroups.FindEntry` | src/letree.h:140-221 | for any predicted position: the last entry whose first key is not above the sought one, or the first |
| `LetreeGroups.EntryRoutes` | src/letree.h:140-147 | the found entry is where the whole group has the key, and its range admits it |
| `LetreeGroups.AdjustedOk` | src/letree.h:347-350 | raising the first key to the least stored key keeps group, pairs and bounds, and changes nothing else |
| `LetreeGroups.ExpandGroup` | src/letree.h:352-388 | one slot per entry afterwards, with the same buckets and pairs, the first key raised to the least stored one, and the model trained on the new entries |
| `LetreeGroups.PutInGroup` | src/letree.h:246-271 | full, with the group unchanged, if and only if the entry for the key has all slots taken, the key’s bucket in it is full and the group has more entries than its limit; otherwise the pair is put, in one entry of the group as it was, or of the group rebuilt with one slot to an entry if and only if it was blocked |
| `LetreeGroups.GetInGroup` | src/letree.h:273-289 | the value among the pairs of the group |
| `Letrees.FindGroup` | src/letree.h:743-760 | for any monotone model and any clamping: the last non-empty group whose first key is not above the sought one, or the first non-empty one |
| `Letrees.OwnsRoutes` | src/letree.h:743-760 | the found group is where the whole tree has the key, and its range admits it |
| `Letrees.FillGroups` | src/letree.h:884-916 | appending the slots where a monotone model puts their keys keeps them in order and every slot in the group that the model predicts |
| `Letrees.AdjustAll` | src/letree.h:827-841 | the first key of every group that holds entries goes up to the least key stored there; no pair and no other slot changes |
| `Letrees.Letree.Init` | src/letree.h:616-621 | an empty tree with one group |
| `Letrees.Letree.BulkLoad` | src/letree.h:628-682 | holds exactly the given ascending pairs, each in a bucket of its own, in the group that the model predicts; all models are trained on what they lead to |
| `Letrees.Letree.Get` | src/letree.h:706-724 | the value of the map, by the fast lookup or after it missed |
| `Letrees.Letree.FindFast` | src/letree.h:762-767 | the value that the predicted group has for the key, if the key is not below the least key noted for the group; never anything but the stored value |
| `Letrees.Letree.Put` | src/letree.h:684-697 | the map is the old one with the key put, for all keys; the tree rebuilds itself, once, if and only if the group for the key is full, and the pair then goes into groups with one slot to an entry, in the groups that the new model predicts; otherwise only the group for the key changes |
| `Letrees.RebuiltFree` | src/letree.h:684-697 | after a rebuild of the tree no group is full, so that the retry ends |
| `Letrees.OwnerIs` | src/letree.h:743-760 | there is only one group that the search may find |
| `Letrees.Letree.ExpandTree` | src/letree.h:816-932 | the same pairs in the same buckets, first keys raised, one slot per entry, each in the group that the model trained on all entry keys predicts, with a group for every 64 slots; models and least keys of the groups follow |

## Left out

- Persistence (flushes, fences, streaming stores), timers, statistics, printing and benchmark glue; only FAST/FAIR is modelled store by store.
- Integer widths and floating point: integers are unbounded, so products that leave the source's 128-bit range are not modelled; slopes, intercepts and model predictions of the fits and of model nodes are exact reals.
- Training (RMI fitting, spline and regression models, cost models): models and cost decisions are inputs.
- PgmIndex.Build: input that ends in the reserved key more than once is excluded (the extra key after it has no value); segmentation by parallel chunks (`make_segmentation_par`) is not modelled; levels are a list instead of one vector with offsets.
- PgmIndex.SegmentForKey: when the reserved key closes the input and levels are bisected, which one of two bottom segments with the same key is found is left open; `GapKeeps` shows that it makes no difference to the promise.
- DynamicPgm.DynamicPGMIndex.Find: `lower_bound`, iteration, size and the loser tree are not modelled (a level whose first candidate is deleted by a newer level contributes nothing there), nor is construction from a range, where duplicate keys break the level sizes.
- SortBuffers.SortBuffer.Put: bytes of the buffer are slots of entries; `SlotsFit` shows that the areas behind them never meet. Builds with `BUF_SORT` are left out: they leave no free slots after `FromKVBuffer`.
- CLevels.CLevel.SetupWith: asks for fewer entries than the capacity, as a completely full buffer would leave a leaf that cannot take another one; a `BEntry` moves its buffer down one entry short of full (src/bentry.cc:45).
- CLevels.CLevel.Put: the tree’s nodes hold sorted sequences, which `PackedNodes` shows the packed buffers to be operation by operation; the tree is not proved over the packed buffers themselves. Keys are the stored suffixes. The unordered iterators and freeing of nodes are not modelled.
- BEntries.BEntry.Put: asks for a key that is not there, as the source appends without looking. Its sort of the buffer by a library function is an insertion sort.
- BEntries.Iter.constructor: with nothing to list, the source reads one undefined key before it ends; the model ends at once.
- BLevels.FlushToEntry: entries are those with a buffer; the loop that moves the pairs over an entry’s capacity down is not entered, as fewer wait than the smallest buffer takes (`expandBufKey` below 7; the builds use 4 or 6).
- BLevels.Expansion: keys lie below 2^64 - 1, which the source keeps as the key after the last entry. Ranges, locks, expansion from an older level by several threads and puts to a finished level are not modelled.
- AlexBitmaps.ClosestGap: words of the bitmap are stretches of 64 flags; the variant without count-leading-zeros instructions is not modelled.
- AlexBitmaps.NextFilled: the inclusive search from a position equal to a capacity that is a multiple of 64 reads past the bitmap and is excluded.
- AlexDataNodes.AlexDataNode.Insert: keys are integers below the sentinel; statistics, append-mostly adjustments and bulk loading from a part of another node are not modelled, nor `find_lower`, `find_upper` and `erase_one`.
- AlexModelNodes.AlexModelNode.SplitSideways: leaves are their sorted keys, and their links are an object of their own; splits downwards and upwards, and the costs that choose a fanout are not modelled.
- AlexModelNodes.AlexModelNode.CreateNewDataNodes: makes the leaves; `LinkNewLeaves` links them afterwards, where the source does both in one loop.
- AlexMerges.Merge: the path to the leaf is given, and its nodes share no children; the correction of a path that ends beside the leaf is not modelled.
- FastFair.Page.Store: leaf pages only, for a key that is new and a pointer that the neighbours do not have; no page but the first is empty. Inner pages, the parent’s update, root growth, merging and redistribution are not modelled.
- FastFair.ReadersAgree: the readers’ retry on a changed switch counter is not modelled.
- SortBuckets.SortBucket.PutBufKV: models builds without `USE_MEM`; with it, the flag that a record was placed while shifting is never set, and the first record is overwritten afterwards (src/pointer_bentry.h:928-937). Asks for a non-zero key that is not there, as the source inserts without looking.
- SortBuckets.SortBucket.Put: asks for a non-zero key that is not there.
- PointerBEntries.PutInEntry: asks for a non-zero key that is not there.
- LetreeGroups.PutInGroup: asks for a non-zero key that is not there.
- Slab.RunInv: the counter is unbounded; construction and reclaiming are not modelled.
- Letrees.Letree.Put: insert-only with distinct non-zero keys; deletes leave zero keys that break sorted insertion, and scans do not advance, so both are left out. Chaining of buckets is not part of the invariants.
- Letrees.Letree.BulkLoad: asks for at least 64 pairs, as fewer would make zero groups. The passes that count and that append the entries of a group are one.
- The ComboTree and PmemKV migration, ALevel and learned upper levels, xindex, lipp, the allocators and older duplicates of the files above.
