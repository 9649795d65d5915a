# The SQLite b-tree layer of SQLCipher, in Dafny

SQLCipher ships SQLite 3.11. This project models the parts of it that keep a database in order and proves what each part
promises: the byte-level page, cells and their overflow chains, rebalancing, cursors, the page allocator and
auto-vacuum, and beside them the bit vector, the shared-cache locks, the b-tree mutexes, online backup, the full-text
query parser and the one-pass sampler of ANALYZE. Code that changes data in place is modelled by classes, arrays and
loops; what it computes is stated by functions and predicates.

**A page (`MemPage`, `Page*`, `Layout`, `FreeList`, `Packing`).** One byte array holds the header, the cell pointers,
the cells, and the free space with its own list inside it. A `Layout` says which bytes are cells and which are
freeblocks; the bytes agree with it in every field. Operations are proved against the sequence of cells and the
free-byte count, with the header of page 1 and the content offset 0 that stands for 65536. `FillCell.FitsPage` ties the
cells to the page's measure, and `PageCheck` is the integrity check of `checkTreePage` on a page. `PageStart` has the
free-space scan and the exits of `freeSpace` on any bytes.

**Cells (`Varint`, `Cells`, `Overflow`, `FillCell`).** Varints are defined as in section 1.6 of the SQLite Database File
Format, checked by the inline decoders. A cell is printed with its chain of overflow pages and parsed, measured, read at
any offset and cleared.

**Rebalancing (`Pack`, `Schedule`, `Siblings`, `Balance`, `PageNumbers`, `Rows`, `Trees`, `Families`, `Signposts`,
`Parent`, `RootBalance`, `TreePlace`, `ParentPlace`, `PlainTree`, `ParentReady`, `TreeBalance`).** Pages are values in a
store. `Trees.Walk` lists what is met from left to right in three views: all cells are entries (an index), only those of
leaves are (a table), or these with the other cells as signposts. Rebalancing keeps the walk, and `Signposts.Searchable`
says that keys and signposts are in order. `TreeBalance` is the loop from a page that overflows, or is too empty, up to
the root, as a run of turns that each share a page's cells with its siblings. `StoredTree` turns such pages into the
nested tree of the cursors, where that order is just what a search needs.

**Cursors (`CursorTree`, `Search`, `Cursor`, `SavedCursor`).** A cursor is a way from the root to a cell. Its position
is the number of entries before it.

**Pages of the file (`PtrMap`, `FreePages`, `Allocator`, `PageGraph`, `Relocate`, `Vacuum`, `IncrVacuum`).** The
free-list is a bag of page numbers; the pointer map names each page's one referrer; a vacuum renames pages.

**Beside the b-tree.** `BitHash` and `Bitvec`; `SharedCache`, `BtMutex` and `Backup`, as steps that interleave;
`LrTables`, `Lr`, `LrStack`, `LrSteps`, `LrRun`, `LrWays`, `LrDerive` and `FtsParser`, where the parser is the automaton
that its tables make, and the automaton finds just the derivations whose operators bind as the grammar says; `StatRows`,
`Stat4`, `Stat4Accum` and `StatMeaning`; `MinHeap` and `Coverage`. `Bytes`, `Facts` and `Results` hold what several of
them use.

A well-formed page, tree or database is an invariant here, and the corruption exits of the code are kept in the methods
and proved not to be taken. Allocation and input/output succeed; the pager is a map from page numbers to pages.
Compiled-out branches (codec, secure delete, tracing) are not modelled.

## Findings

- `btreeRestoreCursorPosition` (sqlcipher-master/src/btree.c:804) combines the old and the new side of a restored cursor
  with a bitwise or. A cursor that a position-keeping delete left just after an entry (side -1), that was then saved,
  and whose search lands on a greater entry (side 1) ends with side -1 and takes that entry for the one before it: the
  next step passes over it (sqlcipher-master/src/btree.c:5333-5339). `SavedCursor.PassedOver` is such a run,
  `SavedCursor.NextSaved` and `PreviousSaved` say exactly when it happens, as a condition on the saved side and the tree
  to be searched, and `SavedCursor.NotMistaken` gives three simple ways to be safe.
- `btreeInitPage` says that a cell comes before the first freeblock, but accepts a freeblock that starts exactly at the
  content start (sqlcipher-master/src/btree.c:1817-1824); `freeSpace` then returns corruption for a cell freed just
  after it (sqlcipher-master/src/btree.c:1643). `PageStart.FreeblockFirstRefused` is such a page, and
  `PageStart.CanFree` says for every page let through when a cell is refused. No operation makes such a page, so the
  invariant excludes it.
- A cell of an index can take slightly more than a quarter of an interior page that has 65536 bytes. The packing never
  fails all the same: `Pack.ThirdFits` needs only a third.

## Model

| member | source | states |
|---|---|---|
| PageInit.InitFree | sqlcipher-master/src/btree.c:1809-1850 | On a well-formed page the scan of the freeblock list meets none of the corruption exits and gives exactly the page's free-byte count. |
| PageStart.InitFree | sqlcipher-master/src/btree.c:1809-1850 | On any bytes the scan lets through exactly the pages whose freeblocks ascend within bounds and have no more free bytes than the page. |
| PageStart.CanFree | sqlcipher-master/src/btree.c:1569-1647 | On any page let through, a cell that overlaps no freeblock is refused exactly if the fragments recorded are too few, or it comes after a freeblock and what is freed begins the content area. |
| PageStart.FreeblockFirstRefused | sqlcipher-master/src/btree.c:1817-1824 | A page that is let through, with right counts, whose one cell cannot be freed. |
| PageRuns.Run | sqlcipher-master/src/btree.c:1326-1654 | Any sequence of insertions that fit, deletions and defragmentations does to the page what it does to a sequence of byte strings, never fails, and keeps the page well formed. |
| PageRuns.SpareExact | sqlcipher-master/src/btree.c:1809-1850 | The free-byte count of a well-formed page is the usable size less the header, the cell pointers and the sizes of the cells; that the scan arrives at it is PageInit.InitFree. |
| PageRuns.EveryByte | sqlcipher-master/src/btree.c:1326-1654 | Every byte from the content start on belongs to exactly one of: one cell, one freeblock, the fragments; the fragments are as many as the header says, 60 at most. |
| MemPages.MemPage.FreeSpace | sqlcipher-master/src/btree.c:1569-1654 | Freeing a cell joins it with freeblocks at most 3 bytes away, gives back exactly its size, moves no other byte in use, and meets none of the corruption exits. |
| MemPages.MemPage.FindNeighbours | sqlcipher-master/src/btree.c:1594-1608 | Walking the list finds the freeblock before the freed cell and the one after it, in ascending order. |
| MemPages.MemPage.PageFindSlot | sqlcipher-master/src/btree.c:1416-1466 | A freeblock with room is taken, and a miss means that no freeblock is big enough or that the fragment count leaves no room for the remainder. |
| MemPages.MemPage.AllocateSpace | sqlcipher-master/src/btree.c:1479-1540 | A request for no more bytes than are free always succeeds, if need be by defragmentation, and the block it gets overlaps no cell, freeblock or pointer. |
| MemPages.MemPage.DefragmentPage | sqlcipher-master/src/btree.c:1326-1400 | All cells are packed against the end of the page with their bytes and their order unchanged, no freeblock or fragment is left, and the gap is the free-byte count. |
| MemPages.MemPage.PackCells | sqlcipher-master/src/btree.c:1357-1387 | Although cells overwrite one another's old places, and the copy is made only when the first cell has to move, every cell arrives with its own bytes. |
| PageDefrag.HoldsCopy | sqlcipher-master/src/btree.c:1379-1387 | The copy made at the first move holds every cell that is still to come. |
| MemPages.MemPage.InsertCell | sqlcipher-master/src/btree.c:6308-6393 | A cell that fits becomes cell i, with its child pointer replaced, and one that does not, or comes after an overflow cell, is kept beside the page as overflow cell with its index; a failed earlier step changes nothing. |
| MemPages.MemPage.DropCell | sqlcipher-master/src/btree.c:6254-6294 | Exactly cell idx is gone, its bytes and its pointer are free, and a page left empty is reset. |
| FreeList.FreedSound | sqlcipher-master/src/btree.c:1609-1650 | Joining keeps freeblocks ascending and 4 bytes apart, absorbs the fragments in between, and moves the counts by exactly the freed bytes. |
| FillCell.RoundTrip | sqlcipher-master/src/btree.c:1092-1210 | A cell written with its overflow chain is parsed back with key, sizes and local part, measured at the same size, read back from any offset in any length, and clearing it frees exactly the pages that writing it added (also lines 6066-6244). |
| FillCell.FillInCell | sqlcipher-master/src/btree.c:6066-6244 | The cell holds the varints, the local part of the payload and the first overflow page; the chain of newly allocated pages holds the rest and every other page is untouched. |
| FillCell.FitsPage | sqlcipher-master/src/btree.c:1217-1262 | A cell is measured at its size by the scan that the page uses, so that cells and page agree about where cells end. |
| Cells.ParseCell | sqlcipher-master/src/btree.c:1092-1198 | Key, payload size, local size, cell size and place of the payload come back as they were written. |
| Cells.ParseKeyCell | sqlcipher-master/src/btree.c:1074-1091 | The interior cell of a table gives back its key and its size. |
| Cells.AdjustForOverflow | sqlcipher-master/src/btree.c:1030-1056 | The local part of a payload that does not fit, and the cell's size with the overflow pointer. |
| Cells.CellSize | sqlcipher-master/src/btree.c:1217-1262 | The quick size scan gives the size of the cell that was written, that is, the size of the full parse. |
| Cells.KeyCellSize | sqlcipher-master/src/btree.c:1265-1285 | So does the scan of a table's interior cell. |
| Cells.SizeLocal | sqlcipher-master/src/btree.c:1217-1262 | The size scan reads no byte after the cell it measures, whatever follows it on the page. |
| Cells.SizeSmall | sqlcipher-master/src/btree.c:1217-1262 | The size of a cell fits in the 16 bits the scan returns, for any bytes at all. |
| Varint.DecodePayload | sqlcipher-master/src/btree.c:1113-1122 | The inline loop, in 32-bit arithmetic, reads the varint of a payload size and stops after its last byte. |
| Varint.DecodeKey | sqlcipher-master/src/btree.c:1129-1145 | The inline loop, in 64-bit arithmetic, reads a 1 to 9 byte varint. |
| Overflow.PayloadCursor.AccessPayload | sqlcipher-master/src/btree.c:4444-4636 | Reading returns exactly the bytes from offset on, across local part and chain, and the cursor's list of overflow page numbers never disagrees with the chain. |
| Overflow.PageCount | sqlcipher-master/src/btree.c:4508-4526 | The list of overflow pages set up for a cell has one place for each page of its chain. |
| Overflow.ClearCell | sqlcipher-master/src/btree.c:5985-6052 | Exactly the pages of the chain are freed, in order, and no corruption exit is taken. |
| Pack.LeftPass | sqlcipher-master/src/btree.c:7281-7322 | The first pass packs each page as full as it can be, keeps each recorded size equal to the sum of its cells, and gives up exactly when no division over five pages fits. |
| Pack.ShiftPair | sqlcipher-master/src/btree.c:7336-7365 | Evening out two neighbours keeps both within the page, leaves the left one a cell, and stops exactly where one more cell would first make the right page the bigger one; in a bulk load, as soon as the right page has a cell. |
| Pack.Divide | sqlcipher-master/src/btree.c:7281-7365 | After both passes the cuts rise to the last cell, no page is empty or too full, no division uses fewer pages, each cut has moved from its place in the greedy division to where the pair it parts is first evened out, and the corruption exit is taken exactly when no division over five pages fits. |
| Pack.GreedyLeast | sqlcipher-master/src/btree.c:7281-7322 | No division that fits uses fewer pages than the greedy one; that the passes end with such a division is Pack.Divide. |
| Pack.NoRoom | sqlcipher-master/src/btree.c:7284-7290 | When full pages are followed by one that overflows, no division into that many pages fits. |
| Pack.LeafDataFits | sqlcipher-master/src/btree.c:7281-7322 | In a table's leaves, up to three pages with one overflow cell always fit on five. |
| Pack.ThirdFits | sqlcipher-master/src/btree.c:7281-7322 | Elsewhere, three full pages and six more cells of at most a third of a page each always fit on five. |
| Balance.CanPack | sqlcipher-master/src/btree.c:7271-7322 | So what balance_nonroot can be given never reaches the corruption exit. |
| Schedule.PageSafe | sqlcipher-master/src/btree.c:7591-7628 | A page is written only when no page yet to be written still reads its old cells. |
| Schedule.WritePages | sqlcipher-master/src/btree.c:7613-7651 | Going down and then up, each page is written exactly once and ends with exactly its new cells, however far cells move. |
| Siblings.SameItems | sqlcipher-master/src/btree.c:7165-7253 | Gathering the cells of siblings and dividers and dividing them anew keeps everything met from left to right. |
| Balance.BalanceSiblings | sqlcipher-master/src/btree.c:7165-7651 | One to five pages come out, as few as the cells allow and evened out, none overflowing or empty; in the leaves of a table they hold the same cells and each divider is made from the last cell of the page before it; elsewhere children, entries and dividers are met in the same order. |
| PageNumbers.AssignNumbers | sqlcipher-master/src/btree.c:7424-7456 | The new pages get the same set of page numbers in ascending order, and the duplicate check fails exactly for duplicates. |
| Parent.ChooseSiblings | sqlcipher-master/src/btree.c:7043-7067 | The page itself is among the siblings, with a neighbour on each side where there are two, and all children are taken where there are three or fewer. |
| Parent.BalanceNonroot | sqlcipher-master/src/btree.c:6983-7737 | Below the parent the same entries are met in the same order, leaves stay at equal depth, no child overflows, no corruption exit is taken; the siblings chosen give way to as few pages as their cells allow, with ascending numbers; dividers outside are kept, those between leaves of a table are the last keys of the pages before them, and where a search was led right before it still is. |
| Signposts.SearchableChange | sqlcipher-master/src/btree.c:7539-7589 | A rebalancing of some children keeps the order of all keys: each divider is no less than every key before it and less than every key after it. |
| Signposts.DrawnChange | sqlcipher-master/src/btree.c:7539-7589 | Everything met below a rebalanced parent was met there before, or is a signpost made from it. |
| Signposts.NewPosted | sqlcipher-master/src/btree.c:7551-7561 | Dividers that are the last keys of the pages before them part the data of the leaves. |
| StoredTree.OrdIs | sqlcipher-master/src/btree.c:5062-5276 | Pages whose keys are met in order form a tree that the cursor's search can be run on. |
| StoredTree.ParentOrd | sqlcipher-master/src/btree.c:5062-5276 | What a rebalancing leaves below its parent is such a tree, and its entries are those met. |
| RootBalance.BalanceDeeper | sqlcipher-master/src/btree.c:7747-7783 | The root's content, overflow cells and all, moves to a new child; everything is met as before, one level lower. |
| RootBalance.BalanceShallower | sqlcipher-master/src/btree.c:7656-7682 | An empty root takes over its only child's content; everything is met as before, one level higher. |
| RootBalance.BalanceQuick | sqlcipher-master/src/btree.c:6760-6850 | A table's rightmost leaf gives its overflowing last cell to a new page; the entries keep their order, the new divider parts them, and neither leaf overflows. |
| ParentReady.PlaceDividers | sqlcipher-master/src/btree.c:7583-7587 | The new dividers go to the parent one by one; the first that does not fit, and all after it, become its overflow cells, four at most and none if all fit. |
| TreePlace.Replace | sqlcipher-master/src/btree.c:7804-7918 | When a subtree changes in its place, everything met before and after it in the tree stays, and no page is met twice. |
| TreeBalance.BalanceUp | sqlcipher-master/src/btree.c:7824-7911 | A page is balanced with its siblings, by a new page on its right where that is enough and else over the least number of pages, and its parent takes the dividers: the whole tree keeps its entries and its order, and only the parent may overflow. |
| TreeBalance.BalanceTree | sqlcipher-master/src/btree.c:7804-7918 | The loop ends, having deepened the tree at most once, and is a run of turns that stops at the first page that is the root without overflow cells, or has none and at most two thirds of it free; a tree whose page is so to begin with is left as it is. No page overflows, all leaves are at equal depth, no page is met twice, the entries are the same, and if keys and signposts were in order they still are. |
| CursorTree.WholeWay | sqlcipher-master/src/btree.c:4757-4830 | The entries of the tree are those before the cursor's page, on it and below it, and after it. |
| Cursor.EntryAt | sqlcipher-master/src/btree.c:4757-4830 | The number of entries before the cursor is its place in the order of entries. |
| Cursor.BtCursor.First | sqlcipher-master/src/btree.c:4968-4985 | The cursor comes to the first entry, or finds the tree empty exactly when it is. |
| Cursor.BtCursor.LastEntry | sqlcipher-master/src/btree.c:4991-5030 | The cursor comes to the last entry, or finds the tree empty exactly when it is. |
| Cursor.BtCursor.Next | sqlcipher-master/src/btree.c:5315-5405 | The cursor moves on by exactly one entry, or reports the end exactly from the last one. |
| Cursor.BtCursor.Previous | sqlcipher-master/src/btree.c:5425-5500 | The cursor moves back by exactly one entry, or reports the start exactly from the first one. |
| Cursor.Scan | sqlcipher-master/src/btree.c:4968-4985 | First and then next until the end visits every entry once, in key order (also lines 5315-5405). |
| Cursor.ThereAndBack | sqlcipher-master/src/btree.c:5315-5500 | Previous undoes next. |
| Cursor.BtCursor.Moveto | sqlcipher-master/src/btree.c:5062-5276 | The search ends on the entry with the key or next to where it would be, with all entries before it smaller, all after it greater, and the sign of the comparison. |
| Search.SearchPage | sqlcipher-master/src/btree.c:5130-5253 | The binary search on one page ends on the key or with every cell before the next child smaller and every other greater. |
| Search.SignTells | sqlcipher-master/src/btree.c:5062-5276 | The sign is 0 exactly if the key is in the tree; otherwise there is an entry on the side it tells. |
| SavedCursor.Save | sqlcipher-master/src/btree.c:611-670 | The key of the cursor's entry is kept, and on which side of it the cursor belongs. |
| SavedCursor.Restore | sqlcipher-master/src/btree.c:790-810 | After any change of the tree, the cursor comes to the entry with the saved key or one next to its place, and remembers the side. |
| SavedCursor.NextSaved | sqlcipher-master/src/btree.c:790-810 | Next after a restore yields the least entry after the saved place if and only if the cursor was not saved just after an entry with its key now gone and the search landing on a greater entry (also lines 5315-5345). |
| SavedCursor.PreviousSaved | sqlcipher-master/src/btree.c:790-810 | Previous after a restore yields the greatest entry before the saved place under the same condition (also lines 5425-5460). |
| SavedCursor.NotMistaken | sqlcipher-master/src/btree.c:790-810 | The condition holds if the cursor was saved on its entry, if that entry is still there, or if no greater entry is. |
| SavedCursor.PassedOver | sqlcipher-master/src/btree.c:790-810 | It can fail: after a position-keeping delete, a save and a change of the table, next finds no entry after 3 although 5 is there. |
| SavedCursor.DeleteKeep | sqlcipher-master/src/btree.c:8163-8257 | A position-keeping delete on a leaf removes exactly the cursor's entry and leaves the cursor beside its place. |
| SavedCursor.DeleteThenNext | sqlcipher-master/src/btree.c:8163-8257 | Next after it comes to the entry after the deleted one (also lines 5315-5345). |
| PtrMap.FinalDbSize | sqlcipher-master/src/btree.c:3571-3587 | The content pages up to the new size number those up to the old size less the free ones, and the new last page is itself a content page, in unsigned 32-bit arithmetic and wherever the pending page lies. |
| PtrMap.CountIs | sqlcipher-master/src/btree.c:895-907 | Content pages up to any page number are the pages less one map page for each group begun and the pending page. |
| PtrMap.EntryInPage | sqlcipher-master/src/btree.c:895-960 | The map entry of every content page lies within its map page. |
| PtrMap.EntriesFill | sqlcipher-master/src/btree.c:895-960 | A map page is for just the pages after it whose entries it has room for; one put off by the pending page is for one less. |
| PtrMap.NoEntry | sqlcipher-master/src/btree.c:895-960 | The offset of an entry comes out negative exactly for map pages and for a pending page in a map page's place. |
| PtrMap.EntriesApart | sqlcipher-master/src/btree.c:895-960 | Different pages have different map entries. |
| PtrMap.MapPageIsMap | sqlcipher-master/src/btree.c:895-907 | The map page of any page is a map page and never the pending page, also where it is shifted past that. |
| Allocator.BtShared.FreePage2 | sqlcipher-master/src/btree.c:5846-5973 | Exactly the freed page is added to the free-list, as a leaf of the first trunk if that has room with six places to spare and else as the first trunk; the count stays exact, and the map entry says so. |
| Allocator.BtShared.Allocate | sqlcipher-master/src/btree.c:5524-5832 | A free page, removed alone from the list, is returned whenever there is one (in LE mode whenever one is not after nearby); it comes from the first trunk that has one that qualifies, and of that trunk's leaves it is the nearest; otherwise the file grows to a page that is neither the pending page nor a map page. |
| Allocator.BtShared.Visit | sqlcipher-master/src/btree.c:5588-5764 | A trunk, or the first of its leaves nearest to the page wanted, is taken if it qualifies, and passing it by means that nothing on it does. |
| Allocator.BtShared.Append | sqlcipher-master/src/btree.c:5766-5822 | The file grows to the next page that is neither the pending page nor a map page. |
| FreePages.TakeFullTrunk | sqlcipher-master/src/btree.c:5659-5690 | A trunk that still has leaves is taken by making its first leaf the trunk of the others: exactly one page leaves the list. |
| PageGraph.MovedGraph | sqlcipher-master/src/btree.c:3386-3453 | Renaming one page throughout keeps every map entry naming its page's one referrer and kind. |
| Relocate.ModifyPagePointer | sqlcipher-master/src/btree.c:3320-3373 | The one pointer of the given kind to the page is changed and no other. |
| Relocate.RelocatePage | sqlcipher-master/src/btree.c:3382-3453 | The pages become their image under the renaming, all map entries are right again, and no corruption exit is taken. |
| Vacuum.RoomBelow | sqlcipher-master/src/btree.c:3514-3554 | While a page after the final size is in use, a page before it is free. |
| Vacuum.CommitStep | sqlcipher-master/src/btree.c:3475-3564 | One step leaves the last page unused, by dropping it or by moving it before the final size, and keeps the database an image of what it was. |
| Vacuum.AutoVacuumCommit | sqlcipher-master/src/btree.c:3639-3686 | Committing leaves exactly the pages in use, under new numbers, none after the final size, none free, and the same graph with every map entry right. |
| IncrVacuum.Step | sqlcipher-master/src/btree.c:3475-3564 | One incremental step frees the last page of the file and keeps the graph, or reports that nothing is free (also lines 3597-3630). |
| Bitvecs.Bitvec.Test | sqlcipher-master/src/bitvec.c:130-152 | The answer is whether the number is in the set, in each of the three representations. |
| Bitvecs.Bitvec.Set | sqlcipher-master/src/bitvec.c:169-232 | Exactly the number is added, through bitmap, hash table, radix node and the conversion from one to the next. |
| Bitvecs.Bitvec.Divide | sqlcipher-master/src/bitvec.c:210-227 | A hash table that is too full becomes a radix node that holds the same set and the new number. |
| Bitvecs.Bitvec.Clear | sqlcipher-master/src/bitvec.c:240-272 | Exactly the number is removed. |
| BitHash.Probe | sqlcipher-master/src/bitvec.c:144-149 | Probing ends, because a slot is always empty, and finds a value exactly if it is in the table. |
| BitHash.Without | sqlcipher-master/src/bitvec.c:255-271 | The table rebuilt without a value holds exactly the other values and can be probed. |
| Bitvecs.BinInRange | sqlcipher-master/src/bitvec.c:134-141 | The bin of a number below the size is one of the node's, and the size below it is smaller, so that recursion ends. |
| SharedCache.SimpleTest | sqlcipher-master/src/btree.c:275-290 | The simple comparison of lock kinds is the full conflict test. |
| SharedCache.OneWriter | sqlcipher-master/src/btree.c:3123-3261 | At most one handle writes, and while one does the shared state says so and names it. |
| SharedCache.Cache.Query | sqlcipher-master/src/btree.c:247-298 | A lock may be had exactly if no other handle has everything for itself or a lock that conflicts; a refused write-lock announces itself. |
| SharedCache.Cache.SetLock | sqlcipher-master/src/btree.c:319-371 | The handle has the lock or a stronger one it had, and no other lock changes. |
| SharedCache.Cache.BeginTrans | sqlcipher-master/src/btree.c:3123-3261 | A transaction begins exactly if no other handle is in its way, with a read-lock on the schema, the writer named and everything for itself if it asks for that; a refusal changes nothing. |
| SharedCache.Cache.LockTable | sqlcipher-master/src/btree.c:9554-9570 | The lock is taken exactly if the query allows it, and no other handle's lock changes. |
| SharedCache.Cache.EndTransaction | sqlcipher-master/src/btree.c:383-438 | The handle's transaction ends, or becomes a reading one, and its locks go or become read-locks; the writer's marks go with the writer, and the mark of a waiting writer goes exactly when no other handle has a transaction; other handles keep their locks (also lines 3745-3777). |
| SharedCache.Run | sqlcipher-master/src/btree.c:247-438 | In every reachable state locks do not conflict, counts and states are those of the handles, an exclusive writer has all locks, and a pending one exists (also lines 3123-3261). |
| BtMutex.Reachable | sqlcipher-master/src/btmutex.c:71-152 | Starting with no mutex held, every interleaving of the steps of Enter and Leave keeps owners, flags and counts consistent. |
| BtMutex.EnterLocks | sqlcipher-master/src/btmutex.c:71-137 | A connection that is not within Enter holds the mutexes of exactly the handles it has entered. |
| BtMutex.EnterAllLocks | sqlcipher-master/src/btmutex.c:186-194 | With all its handles entered it holds all their mutexes. |
| BtMutex.LeaveAllFrees | sqlcipher-master/src/btmutex.c:195-203 | Done with all its handles it holds none. |
| BtMutex.HoldsSmaller | sqlcipher-master/src/btmutex.c:118-136 | A connection that waits for a mutex holds only mutexes at smaller addresses. |
| BtMutex.NoDeadlock | sqlcipher-master/src/btmutex.c:105-137 | Whenever connections are blocked, one of them waits for a connection that is not. |
| BtMutex.Link | sqlcipher-master/src/btree.c:2357-2381 | A new handle goes into the connection's list in the order of addresses. |
| Backups.Backup.BackupOnePage | sqlcipher-master/src/backup.c:234-300 | It is refused exactly for an in-memory destination of another page size; else the destination holds the source page, for equal and unequal page sizes, but for the blocks of its own locking page, and no block elsewhere changes. |
| Backups.Backup.Step | sqlcipher-master/src/backup.c:355-594 | A step copies just as many pages as asked for, or up to the end, and its result is fixed in every case; when it finishes, the destination equals the source as it is then, but for the locking page and the header fields that a backup sets; during a write transaction it does nothing. |
| Backups.Backup.ExtraPages | sqlcipher-master/src/backup.c:533-551 | Source pages that lie within the bigger locking page of the destination are written too. |
| Backups.Backup.SourceWrite | sqlcipher-master/src/backup.c:687-712 | A page written or added during a backup is copied at once if it was copied before, so that every page already passed stays equal. |
| Backups.Backup.SourceReplaced | sqlcipher-master/src/backup.c:727-733 | A change from outside starts the copying again. |
| Backups.Run | sqlcipher-master/src/backup.c:355-733 | Steps, writes, truncations and restarts in any order keep every copied page equal to the source. |
| LrStack.ReductionFits | sqlcipher-master/fts5parse.c:587-678 | Whenever the tables call for a reduction, the right-hand side of its rule is on the stack. |
| LrStack.GotoExists | sqlcipher-master/fts5parse.c:653-678 | Below it is a state from which the goto table has an entry, so that its assertions hold. |
| LrWays.Hops | sqlcipher-master/fts5parse.c:216-257 | From every state a rule may start in, the tables have an edge for each symbol of its right-hand side. |
| LrWays.Ends | sqlcipher-master/fts5parse.c:216-260 | In the state after a right-hand side, each token that may follow the left-hand side calls for the reduction, unless it is an operator that binds tighter. |
| LrDerive.Derived | sqlcipher-master/fts5parse.c:1141-1200 | A tree whose operators bind as they should is derived from its tokens before any token that may follow it, with just the stack that it needs. |
| LrDerive.Unambiguous | sqlcipher-master/fts5parse.c:371-396 | The grammar with its precedences is unambiguous: two such derivations of the same tokens are one. |
| LrDerive.NeedBound | sqlcipher-master/fts5parse.c:126-129 | The stack needed has at most one entry more than there are tokens, besides the bottom one. |
| LrSteps.ReduceShrinks | sqlcipher-master/fts5parse.c:1141-1200 | Each reduction brings the parser closer to its next shift, so that the loop ends for every token. |
| LrSteps.ReduceTidy | sqlcipher-master/fts5parse.c:216-257 | A reduction never puts an operator above one that binds less tightly, or to the right of its equal (also lines 800-1006). |
| FtsParser.Parser.Shift | sqlcipher-master/fts5parse.c:727-765 | The entry is pushed, or the full stack is reported and dropped. |
| FtsParser.Parser.Reduce | sqlcipher-master/fts5parse.c:800-1006 | The right-hand side is replaced by the left-hand side and its derivation; the first rule accepts with a derivation of all tokens shifted. |
| FtsParser.Parser.Parse | sqlcipher-master/fts5parse.c:1091-1250 | While no error is reported, a token is taken with the stack a derivation of the tokens so far; the end mark gives a derivation of all of them in which NOT binds tighter than AND, AND than OR, and equals to the left. It does as the automaton does, step by step, and reports an error only if this has no action left or the stack is full. |
| FtsParser.ParseQuery | sqlcipher-master/fts5parse.c:1091-1250 | A query is accepted exactly if it has a derivation in which the operators bind so, and which the 100-entry stack has room for; the parser then returns this derivation. |
| FtsParser.ShortQuery | sqlcipher-master/fts5parse.c:126-129 | A query of at most 98 tokens always has room. |
| Stat4.SampleIsBetterPost | sqlcipher-master/src/analyze.c:500-516 | The order of samples by the counts of the columns after the chosen one, and then by hash. |
| Stat4.BetterHeavy | sqlcipher-master/src/analyze.c:524-545 | The sample preferred is kept for the bigger group, or for as big a one by no later column. |
| Stat4.FirstDifference | sqlcipher-master/src/analyze.c:500-516 | Between samples kept for as big a group by one column, the first later column in which they differ decides, and else the hash. |
| Stat4.BetterTransitive | sqlcipher-master/src/analyze.c:524-545 | Preference between samples is a strict order, so that a least desirable one exists. |
| Stat4Accums.Stat4Accum.FindNewMin | sqlcipher-master/src/analyze.c:616-630 | When the array is full, a sample that is not periodic is marked, and no other such sample is less desirable. |
| Stat4Accums.Stat4Accum.SampleInsert | sqlcipher-master/src/analyze.c:551-632 | A group that has a periodic sample needs no other, one that has samples has the best of them upgraded, and otherwise the new one comes last, if need be in place of the least desirable. |
| Stat4Accums.Stat4Accum.Offer | sqlcipher-master/src/analyze.c:645-651 | The best row of a group that ends is offered with the group's count, and all samples stay ordered, with true counts, and periodic rows kept. |
| Stat4.CandidateInserted | sqlcipher-master/src/analyze.c:641-651 | Whatever becomes of the candidate for a column, every sample kept still has true or still open counts and the order of rows; what becomes of it is Stat4Accums.Stat4Accum.SampleInsert. |
| Stat4.OfferServed | sqlcipher-master/src/analyze.c:641-651 | After the candidate for a column was offered, its group has a sample that stays, or all samples that can be given up are kept for groups at least as big; and so it still is for every group before. |
| Stat4Accums.Stat4Accum.UpdateBest | sqlcipher-master/src/analyze.c:764-771 | For every column the row kept as best is one of the current group that no row of the group is better than. |
| Stat4Accums.Stat4Accum.StatPush | sqlcipher-master/src/analyze.c:682-773 | Each row keeps the accumulator's invariant: counts of the current row, samples, best rows, periodic rows, and that every sample carries the rowid and hash of its row; the rowids grow by the row's. |
| Stat4Accums.Stat4Accum.Flush | sqlcipher-master/src/analyze.c:641-662 | In the end at most 24 samples are kept, ordered by row, each with its row's rowid and final counts; the last row of every period is among them and no other periodic one; and every prefix of every row is sampled, unless there are 24 samples and all that are not periodic are kept for groups at least as big. |
| Stat4Accums.FewPeriodic | sqlcipher-master/src/analyze.c:449 | Periodic samples are at most a third of the samples, so that one that is not periodic can always be given up. |
| StatMeaning.SampleMeans | sqlcipher-master/src/analyze.c:641-662 | The counts of a sample are the numbers of rows with its prefix, of rows with a smaller one, and of smaller prefixes in the sorted index. |
| StatMeaning.SampledMeans | sqlcipher-master/src/analyze.c:551-632 | A group that is sampled has a sample of a row with the same prefix. |
| StatMeaning.UnsampledMeans | sqlcipher-master/src/analyze.c:524-632 | A prefix left without a sample has no more rows than the one that any sample kept for a column stands for. |
| StatMeaning.CurrentMeans | sqlcipher-master/src/analyze.c:714-745 | At every row the counts of the current row are those numbers among the rows so far. |
| MinHeap.IntHeap.Insert | sqlcipher-master/src/btree.c:9008-9017 | The heap keeps its entries and gains the new one. |
| MinHeap.IntHeap.Pull | sqlcipher-master/src/btree.c:9018-9035 | The least entry is taken out and no other. |
| Coverage.CoverageCheck | sqlcipher-master/src/btree.c:9216-9290 | The check is silent exactly if the ranges are disjoint, none begins before the content area, and the bytes they leave are as many as the fragments recorded. |
| PageCheck.CheckPage | sqlcipher-master/src/btree.c:9216-9290 | It is silent on every well-formed page. |
| PageCheck.CheckDecides | sqlcipher-master/src/btree.c:9216-9290 | For the cells and freeblocks of any page, it is silent exactly if none overlap and the recorded number of fragment bytes is right. |

## Left out

- TreeBalance.BalanceTree: no page but the one the cursor is on overflows to begin with, so that a delete that leaves an
  interior page with a bigger cell is not included; interior cells, and all cells of an index, take at most a quarter of an
  interior page, which pages of 65536 bytes can exceed slightly. Parent.BalanceNonroot needs only a third.
- `editPage`, `rebuildPage`, `pageInsertArray` and `pageFreeArray` at byte level: rebalancing works on pages as sequences of
  cells, and the pages it reads and writes on arrays of such sequences, so that the order of writes counts.
- The virtual root on page 1, and pointer-map writes during a rebalancing.
- Secure-delete overwriting, the temporary cell buffer of `insertCell`, and its pointer-map entry for an overflow page.
- MemPages.MemPage.FreeSpace: the size scan of a cell is a parameter of the page with the property that `Cells.SizeLocal`
  and `Cells.KeyCellLocal` prove of the two scans there are.
- Overflow.PayloadCursor.AccessPayload: writing through a cursor and direct reads of overflow pages are not modelled.
- Cursor.BtCursor.Moveto: the exits that use a key or the end of the table remembered from before; the comparison of index
  records, which are integers here.
- SavedCursor.DeleteKeep: only the case that keeps the cursor in place, a delete from a leaf that keeps other cells and needs
  no rebalancing; the other case saves the key first and is Save, any change, and Restore.
- `sqlite3BtreeInsert`, and `sqlite3BtreeDelete` with rebalancing.
- Allocator.BtShared.Allocate: trunk pages are records, and their bytes are not modelled.
- Relocate.RelocatePage: b-tree pages are cells with child and overflow pointers, without the bytes around them.
- Bitvecs.Bitvec.Set: the union is three fields, the walk down is a recursion, and the size plus 61 fits in 32 bits.
- Backups.Backup.Step: page fetches do not fail; offsets are counted in blocks of the smaller page size; the fields of the
  header that a backup or the pager sets (bytes 18-19, 28-31, 40-43) are left out of the comparison.
- Backups.Backup.Finish: what a new database is given when the source is empty is not part of this model.
- FtsParser.ParseQuery: the values are derivations, not the expression objects that the actions build, and the tokenizer
  before the parser is not modelled.
- Stat4Accums.Stat4Accum.StatPush: the STAT3 build, and key records in place of rowids.
- Stat4Accums.Stat4Accum.Flush: the order of samples by later columns and hash decides between groups of one size by one
  column, but what is ensured of a sample given up is the size of its group and its column.
- PageStart.CanFree: ends before the writes, which `MemPages.MemPage.FreeSpace` has on well-formed pages.
- SharedCache.Cache.BeginTrans: the pager's part, read-only databases, and handles that are not sharable or read uncommitted.
- Destroying bit vectors, freeing memory, and every failure of allocation or input/output.
- Cryptography and the Objective-C headers; `alter.c`, `attach.c`, `auth.c`, `callback.c`, `complete.c` and `mptest.c`.
