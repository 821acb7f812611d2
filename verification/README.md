# BFS structures

A Dafny model of the on-disk structures of a BFS volume and of the code that changes them: the B+trees of
directories and indices, the data streams of inodes, the block allocator and its consistency check, the small
data section of an inode, and the query language. Code that changes state in place is modelled by methods over
classes and arrays; each is proved against functions and predicates on values, and the results over whole
operations and whole runs are stated about those.

How the files hang together:

- **Tree pages.** `node_layout` holds the sizes inside a 1024-byte page and the rules of a split. `node_bytes`,
  `node_page`, `node_split`, `page_split` and `page_loss` are the bytes of a page and the moves that insert, remove
  and split; `page_image` shows that the decoded pages used by the tree are the same pages.
- **The tree.** `tree_shape` is the invariant (levels, intervals, links, contents), `tree_steps`, `tree_path`,
  `tree_remove`, `page_store` and `tree_housing` are its preservation step by step, `tree_keys` says that keys are
  only moved, `tree_fate` says when an insert
  would lose data, `bplus_tree` is the class, `tree_cursor` the positions of iterators. `tree_runs` and
  `cursor_runs` are whole runs. Keys are places on the unit interval; `key_order` says for which key types the
  comparison of the source is that order.
- **Duplicate keys.** `sorted_array`, `duplicate_values`, `duplicate_steps`, `duplicate_chains`, `tree_others`,
  `duplicate_insert`, `duplicate_remove`, `duplicate_tree`, `duplicate_cursor` and `duplicate_runs`: a key's values as a
  plain word, a fragment of a shared page or a chain of pages, all conversions between these, and reading them.
- **Streams.** `inode_stream` (direct and indirect range, growing and shrinking), `double_indirect` (the third range
  and the lookup over all three).
- **Allocation.** `bitmap_words`, `allocation_group`, `run_search`, `block_allocator`, `allocation_runs`, `bitmap_check`.
- **Small data.** `small_data`, `small_data_runs`.
- **Queries.** `query_tree` (meaning, complement, matching, reporting), `query_parser` and `query_text` (the grammar
  and that it is read as meant), `query_pattern` (which patterns are taken), `query_rendering`, `query_terms` and `query_expression` (linked terms in place),
  `index_pairs` and `query_run` (running the equations over the indices, which are the trees with duplicates above).

Some promises of the code turn out not to hold on all inputs. For each there is the input, and the exact condition
under which the promise holds:

- A split can put more than a page into the left half (`NodeLayout.StaleCheckOverruns`, `LeftHalfFits`), and closing
  up the right half can run over lengths still to be read (`PageLoss.LongKeyIsGarbled`, `SplitsFaithfullyIff`). Keys
  of up to 132 bytes are safe, and 133 is not (`ShortKeysSplitSafely`, `TreeRuns.LongerNamesAreLost`,
  `TreeRuns.LongNameIsGarbled`).
- `Remove` of a key that is not there takes its neighbour instead, or reads behind the table of lengths: the check
  for a missing key compares with `B_OK`, and the error code is a positive number.
- The 32-bit key comparison subtracts, so it orders keys only while differences fit (`KeyOrder.Int32OrderIff`).
- The allocator reports the start of a run in a partial bitmap block too low (`RunSearch.ReportedRightIffRegular`), and
  so hands out blocks in use (`BlockAllocator.AllocateBlocks`, `IrregularHandsOutUsed`).
- Matching an OR tries its right side only when that has the better score (`QueryTree.MatchIsExactIff`), so a query can
  miss inodes. It misses others because an equation with an index sees only what is in that index: an inode without the
  attribute matches `a < "x"`, and a directory matches `size >= 0`, but neither is listed (`ReportIsExactIff`,
  `MissingAttributeIsMissed`). And an equation that cannot be prepared, such as `==` on a value that no inode has, ends
  the whole query, whatever else is still to be run (`QueryRuns.OnStackIs`, `MissingValueEndsQuery`).
- The complement is not the negation where a comparison cannot be made (`QueryTree.ComplementNegates`).
- Shrinking a stream to a block boundary inside a run keeps a block too many (`InodeStream.DataStream.Shrink`).
- `Free` does not look whether the blocks were in use, and mounting counts before it repairs: the accounting survives
  exactly when they were (`BlockAllocator.Free`, `Initialize`).
- Fixing the bitmap leaves the groups' counters and hints as they were; they fit the new bitmap only when every group gains
  as many blocks as it loses (`BitmapCheck.ValidAfter`, `UnevenFix`).

## Model

| member | source | states |
|---|---|---|
| `NodePage.InsertKey` | src/bfs/BPlusTree.cpp:952-996 | The memmoves turn the bytes of a page into the bytes of that page with the pair at `index`, and touch nothing outside the counts and the body; beyond the last key nothing changes. |
| `NodePage.RemoveKey` | src/bfs/BPlusTree.cpp:1594-1645 | The bytes become those of the page without the pair; past the last key of an index page its last value becomes the overflow link. |
| `PageSplit.SplitNode` | src/bfs/BPlusTree.cpp:1005-1248 | For every full page whose left half fits, the new page's bytes show the left half, the key that goes up is the right one, the old page's bytes are `SplitBytes`, and they show the right half whenever `RightSafe` holds. |
| `PageSplit.SplitLosesNothing` | src/bfs/BPlusTree.cpp:1005-1248 | Left half, what goes up, and right half, read in order, are the old entries with the new one in its place; both halves are within bounds. |
| `PageLoss.SplitsFaithfullyIff` | src/bfs/BPlusTree.cpp:1196-1219 | Every page with keys of these lengths, whatever its bytes, is closed up into the right half exactly when `RightSafe` holds of the lengths. |
| `PageLoss.LongKeyIsGarbled` | src/bfs/BPlusTree.cpp:1196-1219 | A leaf of the one-byte keys 1 to 88 that gets any 256-byte key in its middle does not show its right half afterwards: a key byte is where a length should be. |
| `PageLoss.LongerKeyIsGarbled` | src/bfs/BPlusTree.cpp:1196-1219 | A leaf of 84 one-byte and four two-byte keys that gets any 133-byte key in its middle does not show its right half either, unless its last byte happens to be 134. |
| `NodeLayout.LeftHalfFits` | src/bfs/BPlusTree.cpp:1027-1063 | The left half is inside its page and leaves an entry for the right one exactly when the new key is not taken on a stale size check that it then exceeds. |
| `NodeLayout.StaleCheckOverruns` | src/bfs/BPlusTree.cpp:1027-1052 | Keys of 226, 226 and 256 bytes and a new one of 256 behind them: everything goes to the left page, 1032 bytes. |
| `NodeLayout.ShortKeysSplitSafely` | src/bfs/BPlusTree.cpp:1005-1248 | No split of a page whose keys have up to 132 bytes, by a key of up to 132 bytes, exceeds a page or overwrites lengths. |
| `NodeLayout.LongerKeyIsLost` | src/bfs/BPlusTree.cpp:1196-1219 | With 133 bytes that is not so: a page of 84 one-byte and four two-byte keys fails. |
| `PageImage.ImageOfSplit` | src/bfs/BPlusTree.cpp:1005-1248 | The halves and the separator of the tree's split are, in bytes, those of the page split. |
| `PageImage.ImageOfRemove` | src/bfs/BPlusTree.cpp:1594-1645 | Taking a slot out of a page of the tree is, in bytes, the removal from the page, the overflow link included. |
| `PageImage.ImageCounts` | src/bfs/BPlusTree.h:444-470 | A page of the tree and its bytes have the same key lengths, so both are split at the same place. |
| `BPlusTrees.BPlusTree.FindKey` | src/bfs/BPlusTree.cpp:646-701 | Binary search gives the first position not below the key, whether the key is there, and the value or link at it. |
| `BPlusTrees.BPlusTree.Find` | src/bfs/BPlusTree.cpp:1822-1867 | Bad value exactly for a bad length; otherwise the stored value exactly when the key is in the tree. |
| `BPlusTrees.BPlusTree.SeekDown` | src/bfs/BPlusTree.cpp:710-745 | The stack is a path from the root to the leaf that the key belongs in. |
| `BPlusTrees.BPlusTree.Allocate` | src/bfs/BPlusTree.cpp:275-328 | Takes the head of the free list or a new page at the end; used and free pages still make up the file, without overlap. |
| `BPlusTrees.BPlusTree.Free` | src/bfs/BPlusTree.cpp:239-271 | Gives a page back the same way: the file shrinks or the free list grows, and every page is used or free. |
| `BPlusTrees.BPlusTree.Insert` | src/bfs/BPlusTree.cpp:1256-1401 | Name in use exactly when the key is there; otherwise the contents gain exactly the pair, the names in the leaves gain the key byte for byte, and the tree invariant holds, and it is lost exactly when the way up, worked out on the old pages, meets a split that is not a safe one; iterators keep their place when nothing is split. |
| `BPlusTrees.BPlusTree.Remove` | src/bfs/BPlusTree.cpp:1654-1754 | The contents lose exactly the key, the names in the leaves lose it and keep the others, pages that run empty are unlinked and freed, and the invariant holds; for a missing key a neighbour goes instead, or, exactly when it sorts behind the last of several keys of its leaf, the table of lengths is overrun; iterators keep their place. |
| `TreeFate.PathLoses` | src/bfs/BPlusTree.cpp:1283-1396 | Climbing back along the path loses data exactly when the descent from the root says so. |
| `TreeSteps.CloseGap` | src/bfs/BPlusTree.cpp:1733-1736 | The step that ends the climb: taking the slot of the freed child out of an index page leaves a tree at rest, with the neighbour taking over the interval, and the same contents. |
| `TreeRemove.AfterDrop` | src/bfs/BPlusTree.cpp:1739-1751 | The step before it: with a page that runs empty unlinked from its neighbours and gone, the rest is a tree but for the gap that its slot one level up still leads to, and the climb goes on there. |
| `TreePath.EveryPageIsReached` | src/bfs/BPlusTree.cpp:710-745 | Every page of the tree is at the end of a path from the root. |
| `TreeRuns.Run` | src/bfs/BPlusTree.cpp:1256-1754 | Over any sequence of adds and drops of present names of 1 to 256 bytes, the tree holds what a directory would hold, or the run stopped at the first add that meets an unsafe split and not before; with names of up to 132 bytes it never stops. |
| `TreeRuns.FindAfter` | src/bfs/BPlusTree.cpp:1822-1867 | After a run that was not stopped, Find answers for every name as the directory would. |
| `TreeRuns.ListAfter` | src/bfs/BPlusTree.cpp:1951-2103 | After such a run, going through the tree lists the directory: every name as it was added, once, in order, with its value. |
| `TreeRuns.LongerNamesAreLost` | src/bfs/BPlusTree.cpp:1196-1219 | 88 short names and then one of 133 bytes, added to a new tree: the last insert loses data. |
| `TreeRuns.LongNameIsGarbled` | src/bfs/BPlusTree.cpp:1196-1219 | In bytes: whatever page holds those 88 names, the moves of that split do not leave its right half. |
| `KeyOrder.StringOrder` | src/bfs/BPlusTree.cpp:2309-2335 | On NUL-free strings the comparison is a total order, the one of base-256 fractions, whatever follows the keys in memory. |
| `KeyOrder.Int64Order` | src/bfs/BPlusTree.cpp:2350-2357 | On 64-bit integers the comparison is a total order, that of places on the unit interval. |
| `KeyOrder.Int32OrderIff` | src/bfs/BPlusTree.cpp:2337-2339 | The 32-bit comparison agrees with the order of integers exactly when the difference fits. |
| `KeyOrder.Int32OrderFails` | src/bfs/BPlusTree.cpp:2337-2339 | Three 32-bit keys that it puts in a circle. |
| `BPlusTrees.TreeIterator.Update` | src/bfs/BPlusTree.cpp:2156-2176 | The new position is the function `Updated` of the old one, with its 16-bit index. |
| `BPlusTrees.TreeIterator.Traverse` | src/bfs/BPlusTree.cpp:1951-2103 | Returns the least key above the iterator's cut, byte for byte the one that was put in, with its value, or that there is none; at the end the position stays. |
| `BPlusTrees.TreeIterator.Find` | src/bfs/BPlusTree.cpp:2112-2145 | Afterwards exactly the keys not below the one asked for lie ahead. |
| `CursorRuns.Drive` | src/bfs/BPlusTree.cpp:1951-2103 | Any mix of iterator steps, inserts without splits and removals on one tree is a trace of the abstract cursor. |
| `CursorRuns.ReturnedByTheEnd` | src/bfs/BPlusTree.cpp:569-583 | In any such trace, a key that is ahead and there all along has been returned when the iterator finds nothing more. |
| `CursorRuns.ReturnedAtMostOnce` | src/bfs/BPlusTree.cpp:569-583 | And it is returned at most once. |
| `CursorRuns.ReturnedInOrder` | src/bfs/BPlusTree.cpp:569-583 | And of two such keys the lower one comes first. |
| `SortedArrays.InsertValue` | src/bfs/Utility.cpp:33-52 | The array stays sorted and gains exactly the value; nothing outside it changes. |
| `SortedArrays.RemoveValue` | src/bfs/Utility.cpp:56-66 | Found exactly when the value is there; then the array stays sorted and loses exactly one occurrence. |
| `DuplicateValues.LinkRoundTrip` | src/bfs/BPlusTree.h:497-530 | A link made of a type, a page and an index tells all three again. |
| `DuplicateValues.OtherKeyKept` | src/bfs/BPlusTree.cpp:794-948 | What leaves the pages and fragments of other keys alone leaves all their values alone, in order. |
| `DuplicateInsert.InsertDuplicate` | src/bfs/BPlusTree.cpp:794-948 | The key's values gain exactly the value, in every form and at every conversion: plain to fragment, within a fragment, fragment to own page or new page, within a chain, to a new page of the chain; other keys keep theirs. |
| `DuplicateRemove.RemoveDuplicate` | src/bfs/BPlusTree.cpp:1409-1584 | Found exactly when the key has the value; then exactly one occurrence goes, through fragment to plain word, emptied pages unlinked and freed, chain to fragment; other keys keep theirs. |
| `DuplicateTrees.Insert` | src/bfs/BPlusTree.cpp:1256-1401 | On a tree with duplicates: the key's values gain the value, all other keys' are unchanged, and so are the names but for the key if it is new; lost exactly for a new key that meets an unsafe split. |
| `DuplicateTrees.Remove` | src/bfs/BPlusTree.cpp:1654-1754 | Not found exactly when the key has several values and not this one; otherwise one occurrence goes, or the whole key, and its name, when it has a single value, whatever that is. |
| `DuplicateRuns.Run` | src/bfs/BPlusTree.cpp:1256-1754 | Over any sequence of additions and removals of present pairs, every name has exactly the values of a map from names to multisets, or the run stopped at the first add that is lost or finds the file too large for links; with names of up to 132 bytes only the latter. |
| `DuplicateRuns.ListAfter` | src/bfs/BPlusTree.cpp:1951-2103 | After such a run, going through the tree lists the index: the names as they were added, in order, and under each exactly its values, as often. |
| `DuplicateCursors.DuplicateCursor.Traverse` | src/bfs/BPlusTree.cpp:1951-2103 | Returns the next value still pending of the current key, or the first value of the next key in order, with the rest of that key's values pending. |
| `DuplicateCursors.ReadAll` | src/bfs/BPlusTree.cpp:1951-2103 | On a tree that stays as it is, going on to the end gives every pair of a key and a value once: keys ascending, each key's values in stored order. |
| `DuplicateCursors.ReadFrom` | src/bfs/BPlusTree.cpp:2112-2145 | After Find the same for exactly the keys not below the one asked for. |
| `InodeStream.DataStream.Grow` | src/bfs/Inode.cpp:1465-1776 | The block list is the old one followed by the runs taken; the arrays are what `PlacedAll` makes of them: each run is merged with the last of its array where that can be and else takes the next place, direct before indirect, and the indirect array is where it was or where it was put; no run more than needed is taken; device full and a full indirect range are told apart. |
| `InodeStream.AppendedUses` | src/bfs/Inode.cpp:1540-1553 | A run takes a new place exactly when it cannot be merged with the last one; the runs before that stay. |
| `InodeStream.PlacedAreCompact` | src/bfs/Inode.cpp:1538-1622 | However a stream has grown, no run could have been merged with the one in front of it in the same array. |
| `InodeStream.PlacedIndirect` | src/bfs/Inode.cpp:1572-1582 | The indirect array stays where it is, or is put, once the direct range is full, at the run allocated for it. |
| `InodeStream.DataStream.Shrink` | src/bfs/Inode.cpp:1900-1959 | The old block list is the new one followed by what is freed, and the blocks kept are those up to the cut, one more when it is on a block boundary inside a run. |
| `InodeStream.FreeStreamArray` | src/bfs/Inode.cpp:1850-1896 | Trimming an array keeps its front, zeroes what is behind and frees exactly that. |
| `InodeStream.DataStream.FindBlockRun` | src/bfs/Inode.cpp:1199-1253 | In a stream of the first two ranges, every position is found in the run of the flat list that holds it, unchanged, and `offset` is the length of all runs before it. |
| `DoubleIndirect.FindDoubleIndirect` | src/bfs/Inode.cpp:1167-1198 | The two divisions give the element of the flat list of the third range, and its place. |
| `DoubleIndirect.WholeStream.FindBlockRun` | src/bfs/Inode.cpp:1159-1256 | The same over all three ranges as one list, for every position below the total size, the runs of the third range being four blocks long. |
| `InodeStream.FoundIsRight` | src/bfs/Inode.cpp:1159-1256 | So the block of the position and all other blocks of that run are those the stream has there. |
| `AllocationGroups.AllocationGroup.Allocate` | src/bfs/BlockAllocator.cpp:256-293 | Marks exactly the run, and keeps count and hint of the group right when it was free. |
| `AllocationGroups.AllocationGroup.Free` | src/bfs/BlockAllocator.cpp:306-341 | Clears exactly the run, and keeps count and hint right when it was in use. |
| `RunSearch.ReportedRightIffRegular` | src/bfs/BlockAllocator.cpp:575-640 | Every start of a run is reported right exactly when the group's last bitmap block is a whole one, or its only one. |
| `BlockAllocators.BlockAllocator.AllocateBlocks` | src/bfs/BlockAllocator.cpp:544-650 | In groups of any size: the run found is the first that is long enough, in the first group round from the one asked for, as long as it is free up to the maximum or the end of its bitmap block; as many blocks are marked and counted from its reported start, which is its own in a regular group; the accounting survives exactly when the blocks marked were free; none is found exactly when both passes are exhausted; fewer than the maximum only when nothing the first pass looks at has the maximum. |
| `BlockAllocators.BlockAllocator.OneAnswer` | src/bfs/BlockAllocator.cpp:559-648 | That says which run is found: pass, group, start and length are determined. |
| `BlockAllocators.BlockAllocator.ExhaustedIfRegular` | src/bfs/BlockAllocator.cpp:563-648 | With regular groups and a minimum below the maximum, both passes are exhausted exactly when no group has a free run of the minimum. |
| `BlockAllocators.BlockAllocator.IrregularHandsOutUsed` | src/bfs/BlockAllocator.cpp:601-622 | In any other group, when only the first block of its last bitmap block is free, whatever run is found there is reported where blocks are in use. |
| `BlockAllocators.BlockAllocator.Free` | src/bfs/BlockAllocator.cpp:730-772 | Refused outside a group or in the reserved area; otherwise exactly the run is cleared, and the accounting survives exactly when all of it was in use. |
| `BlockAllocators.BlockAllocator.Initialize` | src/bfs/BlockAllocator.cpp:452-540 | Scanning at mount makes the groups accurate; the volume's count is right exactly when the reserved blocks were marked. |
| `BlockAllocators.BlockAllocator.InitializeAndClearBitmap` | src/bfs/BlockAllocator.cpp:398-448 | On a new volume exactly the reserved blocks are in use, and all counts agree. |
| `AllocationRuns.Serve` | src/bfs/BlockAllocator.cpp:544-772 | Over any sequence of allocations and frees of held runs: no two runs overlap, nothing in use before is given out, and the bitmap and the count are those of the beginning plus what is held. |
| `BitmapCheck.BitmapChecker.CheckBlockRun` | src/bfs/BlockAllocator.cpp:1109-1192 | Adds exactly the run to the check bitmap and counts its blocks that are missing on disk or already set. |
| `BitmapCheck.Check` | src/bfs/BlockAllocator.cpp:801-1192 | After a check the bitmap is the union of the reserved blocks and the runs; overlaps are noticed exactly when there are any; on a consistent disk without overlaps the two numbers are the sizes of both differences; fixing installs the check bitmap; an allocator that was valid is so afterwards exactly when every group gained as many blocks as it lost and none below its hint became free. |
| `BitmapCheck.ValidAfter` | src/bfs/BlockAllocator.cpp:873-916 | With a new bitmap and the groups' counters of the old one, the accounting is right exactly under that condition. |
| `BitmapCheck.UnevenFix` | src/bfs/BlockAllocator.cpp:873-916 | So when in all more blocks are freed than were missing, or fewer, it is wrong. |
| `BitmapCheck.NothingToFix` | src/bfs/BlockAllocator.cpp:847-924 | Both numbers are zero exactly when the bitmaps agree. |
| `SmallData.SmallDataSection.Add` | src/bfs/Inode.cpp:533-660 | Replaces the data of an attribute or appends one, exactly when it fits; else nothing changes. |
| `SmallData.SmallDataSection.Remove` | src/bfs/Inode.cpp:454-517 | Found exactly when the name is there; then the section is that of the list without it, closed up and zeroed behind. |
| `SmallData.SmallDataSection.ReadAttribute` | src/bfs/Inode.cpp:836-865 | Found exactly when the name is there; then the type and the part of the data asked for are those stored under it. |
| `SmallData.OneList` | src/bfs/bfs.h:333-370 | The bytes of a section store one list of attributes only. |
| `SmallDataRuns.Apply` | src/bfs/Inode.cpp:454-660 | Over any sequence of changes, each is made exactly when it can be (the attribute fits, or is there to be removed), the section holds the list that results, and looking up any name gives what a table of attributes would give. |
| `SmallDataRuns.ServedAsTable` | src/bfs/Inode.cpp:675-719 | The same of the lists alone. |
| `SmallDataRuns.ReadAfter` | src/bfs/Inode.cpp:836-865 | After any sequence of changes, reading an attribute gives the type and the data that the table has. |
| `QueryTree.TestIntegers` | src/bfs/Query.cpp:729-742 | With the comparison of 64-bit integers, each operation holds exactly when its relation holds of the two. |
| `QueryTree.TestSmallIntegers` | src/bfs/Query.cpp:729-742 | With that of 32-bit integers, all of them do exactly when the difference fits. |
| `QueryTree.TestStrings` | src/bfs/Query.cpp:729-742 | With that of strings, exactly when the relation holds of their places, and == exactly for the same string. |
| `QueryTree.ComplementNegates` | src/bfs/Query.cpp:1157-1166 | The complement holds where the tree does not exactly when the tree is not unknown in three-valued logic; never do both hold. |
| `QueryTree.MatchIsExactIff` | src/bfs/Query.cpp:1136-1153 | For a tree of distinct comparisons, matching is right for every inode without errors exactly when every OR has its better score on the right. |
| `QueryTree.ReportIsExactIff` | src/bfs/Query.cpp:1019-1097 | Such a query reports every inode that satisfies it exactly when every OR below the matched side of an AND has its better score on the right, and each equation that is run over comes, in its index, by every inode it matches. |
| `QueryTree.MissingAttributeIsMissed` | src/bfs/Query.cpp:764-783 | An inode without the attribute matches a comparison that the empty string meets and is not reported by it, as it is not in the index; behind an AND, the same comparison lets it pass. |
| `QueryTree.EmptyMeets` | src/bfs/Query.cpp:764-783 | Which comparisons those are. |
| `QueryTree.UnlistedIsMissed` | src/bfs/Index.cpp:320-355 | An inode that is not in the index, such as a directory in that of sizes, is not reported though it matches. |
| `QueryPatterns.ValidPatternIff` | src/bfs/Query.cpp:276-307 | A pattern is taken exactly when it is made of characters, escaped characters, and sets that are not empty, are closed, and have no dash in front of a bare one. |
| `QueryParser.CopyableIff` | src/bfs/Query.cpp:626-643 | Names and values of up to 255 characters are taken, and no longer ones. |
| `QueryText.ReadsAll` | src/bfs/Query.cpp:1317-1409 | Every text of the grammar, with blanks, quotes, redundant parentheses and negations, parses to its meaning, and all of it is read; AND nests right, OR nests left and binds weaker. |
| `QueryRendering.RoundTrip` | src/bfs/Query.cpp:1317-1409 | What is written for a tree parses to that tree. |
| `QueryRendering.NegatedRoundTrip` | src/bfs/Query.cpp:1317-1361 | Written in negated parentheses it parses to the complement, which holds exactly where the tree is false. |
| `QueryTerms.Term.Complement` | src/bfs/Query.cpp:1157-1166 | In place, the linked terms become those of the complement. |
| `QueryTerms.Rewind` | src/bfs/Query.cpp:1473-1508 | The stack yields the equations of both sides of every OR and of the better side of every AND, in order; and wherever the query holds, one of them does. |
| `QueryTerms.Climb` | src/bfs/Query.cpp:1060-1102 | The climb from an equation succeeds exactly when it holds and the other side of every AND above it matches. |
| `QueryRuns.IndicesAreSeen` | src/bfs/Index.cpp:66-103 | Any trees with duplicates can be the indices of a volume; nothing more is asked of them. |
| `IndexPairs.NextPair` | src/bfs/BPlusTree.cpp:1951-2103 | An iterator over an index takes the first of the pairs it has ahead: those left of the current key, then all of the keys above, in order. |
| `QueryRuns.PrepareQuery` | src/bfs/Query.cpp:917-1008 | Fails exactly when the attribute has no index and needs one, or there is no index of names, or `==` finds its value missing; otherwise what is ahead of the iterator, from its start on, is all that the equation finds in its index. |
| `QueryRuns.FitsMeans` | src/bfs/Query.cpp:1030-1042 | But for patterns and times, the keys that fit are those that relate to the value as the operation says, wherever the walk begins. |
| `QueryRuns.GetNextMatching` | src/bfs/Query.cpp:1012-1110 | Walking on, with duplicates skipped and the walk stopped early, returns the first of the inodes the equation has still to find, and misses none. |
| `QueryRuns.Query.GetNextEntry` | src/bfs/Query.cpp:1512-1538 | Returns the first inode still to come, or none exactly when there is none before the end or the next equation that cannot be prepared. |
| `QueryRuns.ReadQuery` | src/bfs/Query.cpp:1438-1538 | A query reports, in order, what its equations find up to the first that cannot be prepared; every inode reported satisfies the query; and when all can be prepared, an inode is reported exactly when `Reported` holds of it. |
| `QueryRuns.OnStackIs` | src/bfs/Query.cpp:1517-1523 | An inode comes up exactly when some equation finds it and that one and all run before it can be prepared. |
| `QueryRuns.FoundByIs` | src/bfs/Query.cpp:1019-1097 | With an index that is up to date, an equation finds exactly the inodes that its walk comes by, that match it and whose climb succeeds. |
| `QueryRuns.CoveredIsComplete` | src/bfs/Query.cpp:1438-1538 | Where no equation fails to be prepared, no index has a gap and the query is covered, an inode is reported exactly when it satisfies the query. |
| `QueryRuns.MissingValueEndsQuery` | src/bfs/Query.cpp:1518-1522 | In an OR whose left side is `==` on a value that is not in its index, nothing at all is reported. |
| `QueryExpression.ReadBack` | src/bfs/Query.cpp:1289-1409 | The parser as it runs links up, from the text written for a tree, the terms of that tree. |

## Left out

- Reads and writes that fail, allocations of memory that fail, and the checks that panic on a corrupt disk: page contents are those the code wrote.
- The block cache and `UnsetUnchanged`, the journal and transactions, locks: an operation sees its own writes, and nothing interrupts it.
- BPlusTrees.BPlusTree.Insert: what a tree is after a split that lost data is not followed; the method stops there and says so.
- BPlusTrees.BPlusTree.Remove: for a missing key behind the last one of its leaf the source also reads the value word behind the table (line 1694) and may take it for a link and answer with an error; the model only says that it reads too far.
- BPlusTrees.TreeIterator.Traverse: forward only; the key is not truncated to the caller's buffer.
- CursorRuns.Drive: inserts that split a page send iterators of the page to its left half with the count of the right one, so their place is not promised then.
- DuplicateTrees.Insert: values are below two to the 62nd, as larger words are taken for links; iterators of a tree with duplicates are not told of changes to the values of a key.
- DuplicateRuns.Run: a file near two to the 62nd bytes is not followed, as its page offsets would not fit links.
- InodeStream.DataStream.Grow: the double-indirect range is not grown or shrunk, and preallocation is the caller's: the runs handed out are a parameter.
- DoubleIndirect.WholeStream.FindBlockRun: 32-bit products of the source (`indirectSize`, `index * indirectSize`) do not overflow.
- BlockAllocators.BlockAllocator.AllocateBlocks: `1 << ag_shift` is the number of bits of a group, and starts and lengths fit their 16 bits.
- AllocationRuns.Serve: runs are followed in regular groups only, as the accounting may be wrong after an allocation in any other.
- PageImage.ImageOfSplit: links and values are signed 64-bit numbers; the words of keys with duplicates are modelled as unsigned ones, so pages that hold them have no image.
- BlockAllocators.BlockAllocator.Initialize: the thread that scans a volume being mounted is modelled as one call.
- BitmapCheck.Check: the runs of the inodes come as a list; walking the directories to collect them is not modelled.
- SmallData.SmallDataSection.Add: names are not empty, as an item with an empty name ends the list; attributes that do not fit are not moved to attribute files, and the positions of attribute iterators are not followed.
- QueryRuns.ReadQuery: `B_ENTRY_NOT_FOUND` is taken as the negative number that `status < B_OK` is meant for; as it is defined (src/bfs/SupportDefs.h:268) it is positive, the tests in `PrepareQuery`, `GetNextMatching` and `GetNextEntry` miss it, and the end of an index goes unnoticed.
- QueryRuns.GetNextMatching: how a key of an index compares with the value, or fits the pattern, and the place where a walk begins are parameters: comparisons are monotone in the key, and nothing is assumed of patterns; inodes that cannot be loaded, permissions and live queries are not modelled.
- QueryTerms.Rewind: scores are parameters.
- QueryRuns.CoveredIsComplete: the indices are up to date for the inode; updating them is not modelled.
- QueryText.ReadsAll: texts outside the grammar are not followed, such as `!(` before nothing or a backslash at the end.
- KeyOrder.StringOrder: floating-point keys, and strings that contain a NUL, are not ordered.
- BPlusTree::Replace, FindSmallData by kind, names of inodes, directories, attributes as files, the Windows front end.
