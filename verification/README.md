# DSP firmware models

A Dafny model of the stateful and arithmetic cores of the DSP firmware, with proofs over every input, every run and every
reachable state. `dafny verify dfyconfig.toml` checks all of it.

| files | component |
|---|---|
| `Dma`, `Grid` | the iDMA engine and pixel rectangles in memory |
| `TileGeometry`, `TilePadding`, `TileRuns`, `TileRunsProofs`, `TileManager`, `TileWitness` | the 2D tile manager: clipping, reuse of the previous tile, request ring, ready check, padding |
| `FastPath`, `FastStores` | the fast load and `xvPadEdges` |
| `Tile3D`, `Tile3DPadding`, `Tile3DOutside`, `Tile3DRuns`, `Tile3DTheorems`, `TileManager3D` | 3D tiles, padded face by face with further transfers |
| `HeapSpec`, `Heap`, `XvMem` | the `xvmem` allocator |
| `LineFifo`, `LineRuns`, `LineRecovery`, `LineTheorems`, `LineWitness`, `IspDriver` | the ISP and post-ISP line rings, who writes them, their interrupts and recovery |
| `NsMap` | the namespace map |
| `RingBuffer` | the ring-buffer writer |
| `Sched`, `ReadyTable` | the scheduler's task tables and ready bitmap |
| `Options`, `Modular`, `Counting` | small shared helpers |

Where the source updates an object step by step there is a class whose methods update the same fields; each method is tied to a
function of the old state, and the properties are proved about that function and about all runs of it. Interrupts, the DMA engine
and the ring's reader are steps that may come at any point. Memory is one flat sequence or array of bytes, and addresses are
integers.

What the proofs say, in short:

- **Tiles.** Whatever the order of requests, DMA progress, ready checks and moves of free tiles, a tile that was requested, reported
  ready and left alone since equals its frame extended by clamping or by the constant; reuse of a previous tile leaves all of
  memory as the plain copy would; a transfer never leaves memory and never reads what it writes.
- **3D tiles.** A tile is finished after exactly one completion for the load and one for each face that needs padding, or one or two for a
  tile outside the frame; then it equals the extended frame, all temporary rows are back in the heap, and nothing else has changed.
- **Allocator.** In every reachable heap the free and live blocks partition the pool, the free list is coalesced and both
  byte counters are exact; allocation is exactly first fit; freeing undoes allocation; freeing everything in any order gives back
  the initial block.
- **Line rings.** The writer goes round the ring by its own count and no status of the FIFO stops it. The consumer is at most a
  frame behind, the mismatch status is never set, lines are asked for in order and once, and an unread line is the one that was
  written there exactly when the FIFO is in step with the writer and the writer has not come round again.
- **Tables.** The namespace array is a finite map, the ring buffer a bounded queue, scheduler slots and live tasks correspond one to one, and the
  ready bitmap is a set of priorities.

Some promises do not hold of the code on all inputs. For each of these the condition under which it holds is proved, and a failing
input or run is shown:

- A request resets the reuse count of the requested tile without looking at it; the count stays the number of readers if and
  only if it was zero (`ReuseCountIsExactIffFree`; the run is `ReaderIsForgotten`).
- The request ring does not check for room; a push appends if and only if fewer than 32 requests are pending (`RingPushIsExact`;
  `RingIsFull`).
- A tile outside the frame in edge mode is left as it is by the regular path: a ready tile shows its frame for certain if and only
  if it meets the frame or the mode does not clamp (`ReadyTileShowsExtendedFrame`; `OutsideEdgeTileIsStale`). In 3D such a tile is
  filled with zeros, which is right if and only if the frame's nearest pixels are zero (`OutsideEdgeShowsIffBlack`,
  `OutsideEdgeTileIsBlack`).
- `xvPadEdges` on four-byte pixels loads the right pixel into one vector register and stores another
  (tileManager.c:2518 and 2520), and one vector store per row bounds the padded width; the constant is splat over four bytes where the
  regular path splats two. `FastTileShows` and `FastTileFails` give the exact condition; `WrongRegister` and `VectorTooShort` the contents.
- A push is refused only after the hardware has written the entry, and frames that end before an overflow is noticed shift the ring:
  the unread lines are the hardware's if and only if the missed lines fill whole rings and the lines written ahead fit beside the unread
  ones (`RingIsIntact`; `OverwrittenBeforeRefused`, `RecoveryOutOfStep`).
- In a ring longer than a frame the producer can restart the side still being read; in one no longer it cannot (`PushSwitchesEmptied`;
  `LongerRingLaps`). An entry for the post-ISP task lies inside the buffer when the ring is a whole number of entries, and otherwise
  at some point does not (`PostEntryInBuffer`; `PostEntryCrosses`).
- `process_command` matches the slot found without asking whether it is in use: an unregistered namespace is served if and only if its
  place is the slot behind the last entry and still holds it (`Dispatch`; `StaleDispatch`), and the slot is outside the array if and only
  if the array is full and the place behind its last entry (`ComparesOutside`; `FullArray`).

And some facts a caller might not expect, which hold of all inputs: a failed pop is reported as success (`TooMany`), a frame that
is not a whole number of entries is never completed (`FragmentNeverCompletes`), and a post-ISP overflow is never left
(`PostOverflowIsFinal`).

## Model

| member | source | states |
|---|---|---|
| Dma.CopyRowsInside | src/driver/TileManager/src/idmaEmulate.c:148-172 | when rows that are read and rows that are written do not meet, every byte of every row arrives unchanged, in whatever order the rows are listed |
| Dma.CopyRowsOutside | src/driver/TileManager/src/idmaEmulate.c:148-172 | a byte in no destination row keeps its value |
| Dma.ExecInside | src/driver/TileManager/src/idmaEmulate.c:212-240 | byte k of row r of plane p arrives at the address the pitches give |
| Dma.Copy2D | src/driver/TileManager/src/idmaEmulate.c:148-172 | the loop with advancing pointers leaves memory as the rows of the plane copied one after the other |
| Dma.Copy3D | src/driver/TileManager/src/idmaEmulate.c:212-240 | the loop over planes leaves memory as the whole transfer does |
| Grids.MoveInside | src/driver/TileManager/src/idmaEmulate.c:212-240 | a transfer described by a box moves each byte to the same coordinates of the other grid |
| Grids.MoveOutside | src/driver/TileManager/src/idmaEmulate.c:212-240 | and leaves every byte outside the box |
| TileGeometry.ClipIsIntersection | src/driver/TileManager/src/tileManager.c:1506-1571 | clipping yields exactly the positions common to tile and padded frame, an empty span exactly when there is none, and otherwise extra and clipped parts that add up to the tile |
| TileGeometry.SolveForXCases | src/driver/TileManager/src/tileManager.c:1161-1255 | the four column cases are exclusive and exhaustive: exactly the pieces that exist are requested, left, shared, right |
| TileGeometry.ReuseCases | src/driver/TileManager/src/tileManager.c:1609-1665 | the row cases 2 to 5 are exclusive and exhaustive: rows above, rows below, and the shared rows handed to solveForX |
| TileGeometry.LoadOpsDeliver | src/driver/TileManager/src/tileManager.c:1573-1674 | with or without a previous tile every transfer copies a box of the clipped rectangle, from the frame or from the previous tile, to its own coordinates, and together they reach every byte of it |
| TileGeometry.ReadsWhatPreviousHas | src/driver/TileManager/src/tileManager.c:1605-1665 | the last transfer to bring a byte reads the previous tile if and only if that tile has the byte |
| TileGeometry.IndependentSharesNothing | src/driver/TileManager/src/tileManager.c:1598-1603 | the four comparisons of case 1 hold if and only if the two tiles share no byte of the frame |
| TileGeometry.IndependentReadsFrameOnly | src/driver/TileManager/src/tileManager.c:1598-1603 | a previous tile that shares nothing with the rectangle is not read |
| TileRunsProofs.TransferIsSafe | src/driver/TileManager/src/tileManager.c:1582-1674 | the rows of each transfer lie in memory and no row read meets one written |
| TileRunsProofs.TransferEffect | src/driver/TileManager/src/tileManager.c:1582-1674 | a transfer brings its box and changes no other byte of the tile and none outside it |
| TileRunsProofs.ReuseRefinesPlainLoad | src/driver/TileManager/src/tileManager.c:1582-1674 | for every tile and previous tile of the frame, the copies of the reuse cases leave all of memory as the single full copy leaves it |
| TilePadding.CopyBufferEdgeDataH | src/driver/TileManager/src/tmUtils.c:934-1000 | the row loop writes the edge row, or padding (zero, the low byte for odd pixel sizes, low and high byte in turn for even ones), to each of the rows and nothing else; later rows read what was there before the first |
| TilePadding.CopyBufferEdgeDataV | src/driver/TileManager/src/tmUtils.c:1045-1140 | the row loop writes each row's own edge pixel, or padding with the same bytes, over the run of columns and nothing else |
| TilePadding.FillsArePadding | src/driver/TileManager/src/tmUtils.c:955-990 | what both writers store when they do not copy is zero in zero mode; in constant mode the low byte of the value for odd pixel sizes, its low and high byte in turn for even ones |
| TilePadding.ShowsPadding | src/driver/TileManager/src/tmUtils.c:955-990 | so a tile that shows the extended frame has these bytes, and no others, at every pixel outside the padded frame |
| TilePadding.PadRows | src/driver/TileManager/src/tileManager.c:2255-2274 | rows above or below take the bytes of the nearest row, or padding; no other byte changes |
| TilePadding.PadColumns | src/driver/TileManager/src/tileManager.c:2276-2295 | columns left or right take the bytes of the nearest column, or padding; no other byte changes |
| TilePadding.PaddingCompletes | src/driver/TileManager/src/tileManager.c:2253-2296 | top, bottom, left, right in this order turn a loaded tile into the extended frame, corners included, keep what was loaded and touch nothing outside the tile |
| TileManagers.PadEdges | src/driver/TileManager/src/tileManager.c:2253-2296 | the padding part of the ready check: from its own addresses and its status bits it achieves PaddingCompletes |
| TileManagers.PadWhole | src/driver/TileManager/src/tileManager.c:2314-2336 | a tile outside the frame becomes all padding, except in edge mode, where all of memory is left as it is |
| TileRunsProofs.RequestKeeps | src/driver/TileManager/src/tileManager.c:1454-1686 | a request of a free tile keeps the invariant of all tiles: places, queue, reuse counts, transfers, contents |
| TileRunsProofs.RequestIs | src/driver/TileManager/src/tileManager.c:1502-1686 | every request, in terms of pixels alone: the previous tile is recorded, gains one reader and is read by a new transfer if and only if the two tiles share a byte of the frame, and no other count changes; each side bit is set exactly when a pixel lies beyond that side; a tile wholly outside gets the dummy index and no transfer |
| TileRunsProofs.AdvanceKeeps | src/driver/TileManager/src/idmaEmulate.c:148-172 | the engine finishing its oldest transfer keeps the invariant |
| TileRunsProofs.RetireKeeps | src/driver/TileManager/src/tileManager.c:2222-2344 | retiring the oldest finished tile keeps the invariant: its image is complete, its previous tile loses one reader |
| TileRunsProofs.TouchKeeps | src/driver/TileManager/inc/tileManager.h:295-302 | moving or writing a free tile keeps the invariant: no transfer still reads it |
| TileRunsProofs.RunKeeps | src/driver/TileManager/src/tileManager.c:1454-1686 | in every state of every run the queue holds exactly the unfinished requests, each reuse count is the number of queued tiles that name the tile, and every byte of a requested tile is the frame's or on its way |
| TileRunsProofs.FreeTileIsUnread | src/driver/TileManager/src/tileManager.c:2300-2304 | an idle tile with reuse count 0 is the source and target of no outstanding transfer |
| TileRunsProofs.HeadIsLoaded | src/driver/TileManager/src/tileManager.c:2227-2233 | when the engine has passed a tile's index the tile holds the frame's pixels on the clipped rectangle |
| TileRunsProofs.WaitsIffOutstanding | src/driver/TileManager/src/tileManager.c:2226-2310 | a queued tile waits for its index exactly as long as one of its own transfers is outstanding |
| TileRunsProofs.ReadyTileShowsExtendedFrame | src/driver/TileManager/src/tileManager.c:2196-2350 | over every run, a tile that was requested, reported ready and left alone shows the frame extended by clamping or by the constant, edges and corners included |
| TileWitness.OutsideEdgeTileIsStale | src/driver/TileManager/src/tileManager.c:2314-2336 | for every place outside its frame in edge mode there is a run at whose end the tile is ready and does not show the extended frame, so the condition of ReadyTileShowsExtendedFrame is exact |
| TileWitness.OutsideEdgeTileIsLeft | src/driver/TileManager/src/tileManager.c:2331-2334 | retiring such a tile changes no byte of memory |
| TileRunsProofs.ReuseCountIsExactIffFree | src/driver/TileManager/src/tileManager.c:1484-1485 | after a request the reuse count is the number of readers if and only if the tile had none before: the reset is unconditional |
| TileWitness.ReaderIsForgotten | src/driver/TileManager/src/tileManager.c:1484-1485 | a run that ends with an idle tile being read, whose next request makes its count 0 with one reader |
| TileRunsProofs.ProgressRetiresPrefix | src/driver/TileManager/src/tileManager.c:2222-2348 | a stretch of DMA progress and retiring leaves every tile in place and retires a prefix of the queue: tiles leave it idle, all others keep their status |
| TileManagers.RingPushIsExact | src/driver/TileManager/src/tileManager.c:1681-1683 | storing behind the window appends to the queue if and only if fewer than 32 requests are pending |
| TileWitness.RingIsFull | src/driver/TileManager/src/tileManager.c:1681-1683 | a run with 32 pending requests and a free tile whose request no ring can append |
| TileManagers.WindowPops | src/driver/TileManager/src/tileManager.c:2347-2348 | moving the start index past n tiles and lowering the count drops exactly the first n |
| TileManagers.TileManager.constructor | src/driver/TileManager/src/tileManager.c:181-267 | a manager with free tiles starts the run with an empty queue |
| TileManagers.TileManager.UpdateDimensions | src/driver/TileManager/inc/tileManager.h:295-302 | moving a free tile is a step of the run that changes that tile's place alone |
| TileManagers.TileManager.Load | src/driver/TileManager/src/tileManager.c:1582-1680 | tile table and transfers after clipping and issuing are those of the request step, which does what RequestIs says |
| TileManagers.TileManager.ReqTileTransferIn | src/driver/TileManager/src/tileManager.c:1454-1686 | with a free tile and room in the ring the fields make exactly the request step of the state machine; the reuse count of the previous tile rises by one if and only if it shares a byte with the tile requested |
| TileManagers.TileManager.DescDone | src/driver/TileManager/src/idmaEmulate.c:249-255 | however far the engine gets, the fields stay a run of the state machine; the answer is whether the index has been passed |
| TileManagers.TileManager.RetireTile | src/driver/TileManager/src/tileManager.c:2232-2336 | pads the oldest queued tile, releases its previous tile and frees it: one retiring step |
| TileManagers.TileManager.RetireFront | src/driver/TileManager/src/tileManager.c:2219-2345 | the loop retires finished tiles in order and stops behind the tile asked about, at the end, or at the first tile that waits |
| TileManagers.TileManager.CheckTileReady | src/driver/TileManager/src/tileManager.c:2196-2350 | only the engine advances and a prefix is retired; not ready means the tile at the front has a transfer outstanding; ready means the tile asked about was the last retired or was idle already, and it shows its extended frame, with the padding bytes of ShowsPadding |
| FastPath.FastLoadEffect | src/driver/TileManager/src/tileManager.c:1798-1813 | the fast load brings the clipped rectangle and leaves every other byte |
| FastPath.EdgeRowsPadded | src/driver/TileManager/src/tileManager.c:1814-1848 | the transfers above and below repeat the first and last row over the full width |
| FastPath.SideFillsStore | src/driver/TileManager/src/tileManager.c:2412-2488 | one vector store per row fills the padded columns as far as the vector reaches, and nothing else |
| FastPath.ConstantFinal | src/driver/TileManager/src/tileManager.c:2530-2637 | the four constant rectangles leave the frame's pixels and the constant everywhere else |
| FastPath.FastConstantIs | src/driver/TileManager/src/tileManager.c:2536-2549 | each pixel of the constant is the padding value cut to the pixel's size, lowest byte first, and zero in zero mode |
| FastPath.FastTileShows | src/driver/TileManager/src/tileManager.c:1705-1858 | when FastAgrees holds (edge mode: each padded side within one vector, and four-byte pixels padded on the right only over a single frame pixel that the left side loaded; constant mode: the two halves of a four-byte constant agree) the fast path shows the extended frame |
| FastPath.FastTileFails | src/driver/TileManager/src/tileManager.c:2509-2526 | and otherwise there are contents of memory and register for which it does not |
| FastPath.ConstantShowsIff | src/driver/TileManager/src/tileManager.c:2536-2549 | zero and constant padding show the extended frame if and only if the pixel is not four bytes wide, the padding is zero, the halves of the constant agree, or nothing is outside |
| FastPath.WrongRegister | src/driver/TileManager/src/tileManager.c:2509-2526 | four-byte pixels padded on the right: contents for which the stored register is not the row's pixel |
| FastPath.VectorTooShort | src/driver/TileManager/src/tileManager.c:2412-2488 | a side wider than one vector: contents for which its last column is not the frame's |
| FastPath.FastEqualsRegular | src/driver/TileManager/src/tileManager.c:2369-2651 | the fast path and the regular request with its padding leave the same tile |
| FastStores.PadSide | src/driver/TileManager/src/tileManager.c:2412-2488 | the row loop of one side stores each row's own pixel, and leaves the last one in the register |
| FastStores.PadRightWords | src/driver/TileManager/src/tileManager.c:2509-2526 | the four-byte right side stores the register in every row |
| FastStores.StoreRun | src/driver/TileManager/src/tileManager.c:2562-2571 | a run stored a vector at a time is the constant from its start, however many vectors it takes |
| FastStores.StoreRect | src/driver/TileManager/src/tileManager.c:2553-2637 | the row loop leaves the constant on the rectangle and nothing else changed |
| FastStores.PadConstantEdges | src/driver/TileManager/src/tileManager.c:2551-2637 | left, right, top and bottom rectangles, each only when its side is marked |
| FastStores.XvPadEdges | src/driver/TileManager/src/tileManager.c:2369-2651 | on a loaded tile that meets the frame the stores leave exactly the tile FastTile describes; a tile outside it, unless the mode is edge padding, becomes the extended frame |
| Tile3D.LoadIsBox | src/driver/TileManager/src/tileManager.c:3345-3365 | the 3D load is the transfer of the part inside the frame to its own coordinates |
| Tile3D.ConstantIsBox | src/driver/TileManager/src/tileManager.c:3594-3974 | each of the six constant faces is the box of the face filled from the temporary row |
| Tile3D.RepeatIsBox | src/driver/TileManager/src/tileManager.c:3594-3974 | each top, bottom, front and back face in edge mode is the box of the face read from the layer beside it |
| Tile3D.ColumnIsBox | src/driver/TileManager/src/tileManager.c:3594-3974 | the j-th transfer of a left or right face is the j-th column outwards, read from the outermost column of the frame |
| Tile3DPadding.Extends | src/driver/TileManager/src/tileManager.c:3422-4047 | a transfer fed with the image extends the region that shows it |
| Tile3DPadding.LoadShows | src/driver/TileManager/src/tileManager.c:3345-3365 | the load stays in memory and the part inside the frame shows the image |
| Tile3DPadding.ConstantFace | src/driver/TileManager/src/tileManager.c:3594-3974 | a face padded from its temporary row extends the image over the face and changes nothing outside the buffer |
| Tile3DPadding.RepeatFace | src/driver/TileManager/src/tileManager.c:3594-3974 | a top, bottom, front or back face padded by repetition extends the image over the face |
| Tile3DPadding.EdgeFace | src/driver/TileManager/src/tileManager.c:3594-3974 | any face in edge mode, left and right column by column, extends the image over the face |
| Tile3DPadding.EdgeIsSafe | src/driver/TileManager/src/tileManager.c:3594-3974 | every transfer of a face in edge mode stays in memory and reads nothing it writes |
| Tile3DOutside.OutsideIsPadding | src/driver/TileManager/src/tileManager.c:3366-3390 | a tile outside the frame is all padding if and only if it shows the extended frame, unless the mode clamps |
| Tile3DOutside.FilledIsPadding | src/driver/TileManager/src/tileManager.c:47-68 | a filled tile is zero or the constant, byte by byte, outside the padded frame; in edge mode a tile outside the frame is all zero |
| Tile3DOutside.OutsideEdgeShowsIffBlack | src/driver/TileManager/src/tileManager.c:3366-3390 | in edge mode the zero-filled tile outside the frame shows the clamped frame if and only if the frame's nearest pixels are all zero |
| Tile3DOutside.StackShows | src/driver/TileManager/src/tileManager.c:3984-4012 | the second transfer, reading planes it has itself written, fills every 2D tile with padding |
| Tile3DTheorems.RequestStarts | src/driver/TileManager/src/tileManager.c:3184-3398 | a request puts the tile into the loading phase, or the filling phase outside the frame, with the invariant |
| Tile3DTheorems.StartKeeps | src/driver/TileManager/src/tileManager.c:3594-3974 | starting a face, with its temporary row where one is used, keeps the invariant and leaves the image as it is |
| Tile3DTheorems.CompletionStep | src/driver/TileManager/src/tileManager.c:3422-4047 | each completion keeps the invariant, passes to the next face that needs padding and takes exactly one off what remains |
| Tile3DTheorems.TileIsCompleted | src/driver/TileManager/src/tileManager.c:3422-4047 | after exactly one completion for the load and one for each face to pad (one or two outside the frame), and not before, the status is 0, the tile is the extended frame with its padding bytes, every temporary row is freed, and no byte that is neither the tile's nor free has changed |
| Tile3DTheorems.OutsideEdgeTileIsBlack | src/driver/TileManager/src/tileManager.c:3366-3390 | so a completed tile outside the frame in edge mode shows it if and only if those pixels were zero at the request, and does not for a frame that is nowhere zero |
| TileManagers3D.TileManager3D.ReqTileTransferIn3D | src/driver/TileManager/src/tileManager.c:3184-3398 | the fields after a request are those of the request step |
| TileManagers3D.TileManager3D.CheckTileReady3D | src/driver/TileManager/src/tileManager.c:3422-4047 | the chain of needed and ongoing bits makes exactly one completion step when the transfer is done, and nothing otherwise |
| HeapSpec.CanonicalIsUnique | src/driver/TileManager/src/tmUtils.c:733-801 | a coalesced address-ordered list is determined by the bytes it holds |
| HeapSpec.AllocatedIsAligned | src/driver/TileManager/src/tmUtils.c:350-365 | the address is a multiple of the alignment and its bytes lie in what is taken from the block |
| HeapSpec.FitsIffRoom | src/driver/TileManager/src/tmUtils.c:597-635 | a block fits if and only if some aligned address leaves room for the request in it; what is given out is its lowest aligned address; the block is split if and only if more than four bytes lie behind the request |
| HeapSpec.AllocTakes | src/driver/TileManager/src/tmUtils.c:616-677 | exactly the taken bytes leave the free list, which stays ordered and coalesced |
| HeapSpec.InsertAdds | src/driver/TileManager/src/tmUtils.c:733-801 | freeing adds exactly the bytes of the block and keeps the list ordered and coalesced, whichever neighbours it joins |
| HeapSpec.AllocThenFree | src/driver/TileManager/src/tmUtils.c:733-801 | putting back what was taken restores the list range by range |
| HeapSpec.FreesCommute | src/driver/TileManager/src/tmUtils.c:733-801 | freeing two blocks in either order gives the same list |
| Heaps.InitialIsGood | src/driver/TileManager/src/tmUtils.c:81-268 | initialisation yields a partitioned heap, with the headers inside the pool or outside |
| Heaps.AllocReturnsFirstFit | src/driver/TileManager/src/tmUtils.c:575-701 | success gives out the lowest aligned address p of the first free block with room; what leaves the free list ends at p + size if more than four bytes of the block lie behind it, else with the block; it becomes the newest live buffer; it was free and in no live buffer |
| Heaps.AllocFailsExactly | src/driver/TileManager/src/tmUtils.c:575-701 | failure happens exactly when the alignment is no power of two, no free block has room, or the first that has must be split and no header is left; the heap is then unchanged |
| Heaps.AllocThenFreeRestores | src/driver/TileManager/src/tmUtils.c:830-883 | freeing what was just allocated restores the heap |
| Heaps.RunsKeep | src/driver/TileManager/src/tmUtils.c:575-701 | in every reachable heap free and live blocks partition the pool, live buffers are apart, the free list is coalesced |
| Heaps.FreeingAllRestores | src/driver/TileManager/src/tmUtils.c:830-883 | freeing every live buffer in any order gives back the initial heap |
| Heaps.RunThenFreeAll | src/driver/TileManager/src/tmUtils.c:830-883 | the same after any run of calls |
| XvMems.FindMsBit | src/driver/TileManager/src/tmUtils.c:299-317 | the loop finds the exponent of a power of two |
| XvMems.ComputeNewSize | src/driver/TileManager/src/tmUtils.c:350-365 | the bit arithmetic gives the least size that holds the request at the alignment |
| XvMems.PowersAre | src/driver/TileManager/src/tmUtils.c:579-582 | the alignments that are accepted are exactly the powers of two |
| XvMems.XvMem.constructor | src/driver/TileManager/src/tmUtils.c:81-268 | the fields after initialisation are the initial heap, with header bits and counters in step |
| XvMems.XvMem.Init | src/driver/TileManager/src/tmUtils.c:81-268 | initialisation fails exactly on a null pool or, without headers of its own, on fewer than 520 bytes; then the first 516 bytes hold the 32 headers and the rest is one free block |
| XvMems.XvMem.LeadingZeroCount | src/driver/TileManager/src/tmUtils.c:403-460 | the lowest unused header, or none left |
| XvMems.XvMem.ToggleBit | src/driver/TileManager/src/tmUtils.c:492-536 | flips one bit |
| XvMems.XvMem.FindBlock | src/driver/TileManager/src/tmUtils.c:597-612 | the walk over the linked list stops at the first block that fits |
| XvMems.XvMem.Carve | src/driver/TileManager/src/tmUtils.c:635-677 | splits the block exactly when more than four bytes are left over, else takes it whole; uses or spares a header, and leaves lists, bits and ranges in step; fails only when a header is wanted and none is left, changing nothing |
| XvMems.XvMem.PushAllocated | src/driver/TileManager/src/tmUtils.c:679-687 | the block becomes the first of the allocated list |
| XvMems.XvMem.FindLive | src/driver/TileManager/src/tmUtils.c:830-883 | the walk over the allocated list finds the block with this address, or none |
| XvMems.XvMem.Unlist | src/driver/TileManager/src/tmUtils.c:830-883 | unlinking takes exactly that block off the allocated list |
| XvMems.XvMem.AddBlockToFreeList | src/driver/TileManager/src/tmUtils.c:733-801 | relinks and merges in place; the list read off the links is the specification's, and headers of merged blocks become unused |
| XvMems.XvMem.Serve | src/driver/TileManager/src/tmUtils.c:616-687 | carving the block found and putting it on the allocated list is the whole allocation, with both counters exact |
| XvMems.XvMem.Alloc | src/driver/TileManager/src/tmUtils.c:575-701 | result, status and new heap are those AllocReturnsFirstFit and AllocFailsExactly promise, a header bit is set exactly when the header is on neither list, and both counters are exact |
| XvMems.XvMem.Free | src/driver/TileManager/src/tmUtils.c:830-883 | the same for freeing; null and unknown addresses change nothing |
| LineRuns.UnreadAreApart | src/driver/common/isp_common.c:123-167 | the unread lines of both sides are at most a ring of them and sit at distinct indices |
| LineRuns.LineInPlace | src/driver/common/isp_common.h:203-206 | with a writer that goes round the ring by its own count, an unread line is where the FIFO expects it if and only if the FIFO is in step with the writer and the writer has not come round to the place again |
| LineRuns.UnreadInPlace | src/driver/common/isp_common.c:88-167 | all unread lines are where the FIFO expects them if and only if there are none, or the FIFO is in step and the lines written ahead of their announcement fit beside them |
| LineRuns.WriteKeeps | src/driver/common/isp_common.c:123-167 | the writer, which no status of the FIFO stops, keeps the invariant with every line it writes |
| LineRuns.PushKeeps | src/driver/common/isp_common.c:123-167 | a push that is taken makes the entry just written unread, one that is refused makes nothing unread, and neither moves a line |
| LineRuns.PushIsTaken | src/driver/common/isp_common.h:178-188 | a push is taken exactly in the normal status, with an acceptable count, when the entry fits beside the unread lines of both sides; otherwise the status says whether the count or the room was wrong |
| LineRuns.PushSwitchesEmptied | src/driver/common/isp_common.c:151-165 | a frame is completed only when the consumer has left the other side, so the switch resets nothing unread |
| LineRuns.SegmentsAreNext | src/driver/common/isp_common.c:41-85 | the one or two segments lie inside the buffer and are the next unread lines in order |
| LineRuns.TakeReads | src/driver/common/isp_common.c:88-121 | a take reads the places of the next unread lines, in order, or nothing |
| LineRuns.TakeIsRight | src/driver/common/isp_common.c:41-121 | what a take reads is exactly what is due if and only if it reads nothing, or the FIFO is in step and has room for the lines written ahead |
| LineRuns.TakeKeeps | src/driver/common/isp_common.c:88-121 | a take, with or without a switch of sides, keeps the invariant |
| LineRuns.TooMany | src/driver/common/isp_common.c:99-104 | asking for more lines than there are changes nothing and still reports success |
| LineRuns.ResetKeeps | src/driver/isp/isp_handler.c:85-100 | a reset starts the next frame empty with the invariant, while the hardware writes on from wherever it is |
| LineRuns.StepKeeps | src/driver/isp/isp_hw.c:33-79 | every step of either driver, writer, interrupt or task, in every status, keeps the invariant |
| LineRuns.RunsKeep | src/driver/common/isp_common.c:88-167 | over every run, the writer going on through overflow and recovery: the consumer is at most one frame behind, the mismatch status is never set, the lines asked for ascend, and unread lines are in place exactly under the condition of UnreadInPlace |
| LineTheorems.ConfiguredIsGood | src/driver/isp/isp_handler.c:35-56 | configuring with whole entries per frame and a ring no longer than a frame (for the post-ISP of whole entries) starts the invariant |
| LineTheorems.EveryLineOnce | src/driver/isp/isp_handler.c:122-157 | until a recovery begins the lines asked for are 0, 1, 2, ... up to the next to read, each once |
| LineTheorems.DeliveredIsDue | src/driver/common/isp_common.c:41-121 | over every run, recoveries included, in which each take finds the FIFO in step and with room, all that was delivered is what was due |
| LineTheorems.LongerRingLaps | src/driver/common/isp_common.c:151-165 | in a ring longer than a frame there is a run in which the producer restarts the side still being read |
| LineTheorems.FragmentNeverCompletes | src/driver/common/isp_common.c:142-151 | when a frame is not whole entries no number of pushes completes it |
| LineTheorems.PostEntryInBuffer | src/driver/isp/post_isp_handler.c:62-84 | with a ring of whole entries the entry handed out to write lies inside the buffer, at the place of the next lines |
| LineTheorems.PostEntryCrosses | src/driver/isp/post_isp_handler.c:62-84 | otherwise, after as many entries as fit, the entry handed out crosses the end of the buffer without an error |
| LineTheorems.PostOverflowIsFinal | src/driver/isp/post_isp_handler.c:191-211 | no step of the post-ISP driver or of its task leaves the overflow status |
| LineRecovery.StaysInStep | src/driver/isp/isp_hw.c:33-79 | the hardware's count, the frames missed and the producer's position stay in a fixed relation through writes, pushes, overflow and recovery |
| LineRecovery.LineIsTheHardwares | src/driver/isp/isp_handler.c:85-119 | over every run of the hardware and the task, an unread line in the normal status is the hardware's if and only if the lines of the frames missed in overflow fill whole rings and the hardware has not come round to it again |
| LineRecovery.RingIsIntact | src/driver/isp/isp_handler.c:85-119 | so all unread lines are the hardware's if and only if there are none, or the missed lines fill whole rings and those written ahead of the interrupt fit beside the unread ones |
| LineRecovery.RecoveryResynchronises | src/driver/isp/isp_handler.c:103-119 | at the start of a frame in the normal status the active side starts where the hardware writes if and only if the lines of the frames missed in overflow fill whole rings; so always when none was missed |
| LineRecovery.RecoveryEndsEmpty | src/driver/isp/isp_hw.c:47-66 | the frame interrupt that ends a recovery leaves both flags equal, nothing unread and the offset a whole number of frames from the start |
| LineWitness.RecoveryOutOfStep | src/driver/isp/isp_hw.c:47-66 | a run from a configured handler that comes back to the normal status with a frame missed and offers a line the hardware did not write there |
| LineWitness.OverwrittenBeforeRefused | src/driver/isp/isp_hw.c:51-56 | a run with no overflow yet in which the hardware has overwritten an unread line, because the refusing push comes only with the interrupt |
| IspDrivers.LineHandler.PushNewLine | src/driver/common/isp_common.c:123-167 | for every handler, who is where after a push and with which status; in a run, taken exactly when PushIsTaken says, and then the entry's lines are unread too and every unread line is where it was; a refusal makes nothing unread |
| IspDrivers.LineHandler.PopNewLine | src/driver/common/isp_common.c:88-121 | in the normal status it reads the places of the next unread lines, as many as asked for if there are as many, else none; the status and what is written stay |
| IspDrivers.LineHandler.GetEntryToPop | src/driver/common/isp_common.c:41-85 | when as many lines as asked for are unread, the buffers returned lie inside the frame buffer and hold as many lines, the i-th at the place where the FIFO expects the i-th unread line |
| IspDrivers.LineHandler.GetNextEntry | src/driver/isp/isp_handler.c:122-157 | in the normal status the task gets exactly an entry's lines when as many are unread, else those of the last entry, else the status becomes the failed pop; in a run that is an entry of the next unread lines, each at its place, or nothing |
| IspDrivers.LineHandler.FifoReset | src/driver/isp/isp_handler.c:85-100 | drops exactly what is unread: the FIFO is empty at the first line of the next frame, both flags on one side, the ring untouched |
| IspDrivers.LineHandler.IspRecoveryStateUpdate | src/driver/isp/isp_handler.c:103-119 | recovering to done drops what is unread and begins the frame behind the one given up; done to normal leaves the FIFO's next line standing for the hardware's next; anything else goes to recovering and moves nothing |
| IspDrivers.LineHandler.IspInterruptHandler | src/driver/isp/isp_hw.c:33-79 | a line interrupt makes the entry unread if it is taken, and the counter the hardware's; a frame interrupt ends a recovery that is done or drops what is unread under one, which goes on; the status says what happened; nothing in the ring and nothing delivered changes |
| IspDrivers.LineHandler.PostRecoveryStateUpdate | src/driver/isp/post_isp_handler.c:191-211 | as for the ISP, with the counter of triggers, and an overflow left as it is |
| IspDrivers.LineHandler.PostPopEntry | src/driver/isp/post_isp_handler.c:87-99 | in the normal status the hardware's entry reads the next whole entry of unread lines, or none when fewer are unread |
| IspDrivers.LineHandler.PostIspInterruptHandler | src/driver/isp/post_isp_hw.c:35-89 | an entry done reads the next entry in the normal status, and under recovery counts an entry until the frame is full; a frame end under recovery drops what is unread and clears the counter; otherwise nothing is read, dropped or counted |
| IspDrivers.LineHandler.PostPushEntry | src/driver/isp/post_isp_handler.c:113-129 | taken as PushNewLine says, and the counter is then the frame's lines pushed |
| IspDrivers.LineHandler.Config | src/driver/isp/isp_handler.c:35-56 | exactly the parameters out of range are refused, which only sets the status; otherwise the configuration is the one asked for, the last entry what whole entries leave of the frame, the lines used the frame or, for the post-ISP, the frame rounded up to whole entries, and side 0 begins; in a state that keeps the invariant when a frame is whole entries and the ring no longer than a frame |
| NsMaps.CompareTransitive | src/xrp-dsp/xrp-common/xrp_ns.c:30-33 | identifiers are ordered |
| NsMaps.CompareEqual | src/xrp-dsp/xrp-common/xrp_ns.c:30-33 | the comparison is 0 exactly on equal identifiers, and changes sign with its arguments |
| NsMaps.PlaceIsLookup | src/xrp-dsp/xrp-common/xrp_ns.c:35-38 | the entry at the place matches exactly when the identifier is registered, and is then its entry |
| NsMaps.InsertRegisters | src/xrp-dsp/xrp-common/xrp_ns.c:134-154 | inserting at the place keeps the order, registers the identifier and leaves all other handlers |
| NsMaps.RemoveUnregisters | src/xrp-dsp/xrp-common/xrp_ns.c:156-164 | removing keeps the order, unregisters exactly that identifier and leaves all other handlers |
| NsMaps.CmdNsMap.FindCmdNs | src/xrp-dsp/xrp-common/xrp_ns.c:99-132 | binary search returns the lower bound |
| NsMaps.CmdNsMap.Enlarge | src/xrp-dsp/xrp-common/xrp_ns.c:134-154 | a full array moves to twice its size and two more with the same entries |
| NsMaps.CmdNsMap.InsertAt | src/xrp-dsp/xrp-common/xrp_ns.c:134-154 | shifting up in place inserts |
| NsMaps.CmdNsMap.RemoveAt | src/xrp-dsp/xrp-common/xrp_ns.c:156-164 | shifting down in place removes, and the slot after the last keeps a copy |
| NsMaps.CmdNsMap.RegisterNamespace | src/xrp-dsp/xrp-common/xrp_ns.c:166-187 | fails exactly on a duplicate or when an enlargement gets no memory, and is an update of the finite map otherwise |
| NsMaps.CmdNsMap.UnregisterNamespace | src/xrp-dsp/xrp-common/xrp_ns.c:189-201 | succeeds exactly when the identifier is registered, and removes only it |
| NsMaps.CmdNsMap.Dispatch | src/xrp-dsp/xrp_dsp.c:513-523 | whenever the compared slot is in the array: a registered identifier gets its handler; an unregistered one is wrongly served exactly when its place is the slot behind the last entry and that slot still holds the identifier |
| NsMaps.CmdNsMap.ComparesOutside | src/xrp-dsp/xrp_dsp.c:513-523 | the compared slot lies outside the array if and only if the array is full and the identifier's place is behind the last entry |
| NsMaps.FullArray | src/xrp-dsp/xrp_dsp.c:513-523 | two registrations fill the array, and for a larger identifier the compared slot is outside it |
| NsMaps.StaleDispatch | src/xrp-dsp/xrp_dsp.c:513-523 | after the identifier that was last is unregistered, a dispatch to it still succeeds |
| RingBuffers.ReadTakesFirst | src/xrp-dsp/xrp-common/xrp_rb_file.c:27-53 | advancing the read index takes the first unread bytes and leaves the rest |
| RingBuffers.PieceAppends | src/xrp-dsp/xrp-common/xrp_rb_file.c:27-53 | a piece sized by a read index the reader may have left behind is appended, keeps the unread bytes and never makes a full ring look empty |
| RingBuffers.RingBuffer.WriteSome | src/xrp-dsp/xrp-common/xrp_rb_file.c:27-53 | writes one piece in place: the queue gains exactly its bytes |
| RingBuffers.RingBuffer.Write | src/xrp-dsp/xrp-common/xrp_rb_file.c:55-71 | with a quiet reader exactly min(requested, free) bytes are appended in order |
| RingBuffers.RingBuffer.WriteWhileRead | src/xrp-dsp/xrp-common/xrp_rb_file.c:55-71 | while the reader moves on between looking and writing, nothing is lost, repeated or reordered, and no less is written than with a quiet reader |
| Scheds.NsidsDiffer | src/core/ps_sched.c:194-203 | different priorities get different identifiers, none of them the empty one |
| Scheds.BootIsGood | src/core/ps_sched.c:326-393 | after boot the common command is in slot 0 and registered under its identifier, the idle task is in slot 1, all other tasks are free, and the tables are in step |
| Scheds.CreateKeeps | src/core/ps_sched.c:733-809 | creating fails exactly on an unknown type, no free task of the class, or no memory for the namespace: never on a duplicate namespace and never for want of a slot; otherwise the first free task of the class gets the type asked for and an identifier of its own, is ready exactly for type 1 (software to software), and its id is the next number, or the first empty slot when all are used |
| Scheds.DestroyKeeps | src/core/ps_sched.c:812-846 | destroying frees exactly the task in the slot with its namespace, and gives the last number back; an empty slot or bad id changes nothing |
| Scheds.RunsKeepTables | src/core/ps_sched.c:414-441 | over every run slots and live tasks correspond one to one, ids are unique and the namespace map holds exactly the identifiers of live software tasks other than the idle one |
| Scheds.Scheduler.GetFreeTask | src/core/ps_sched.c:160-186 | the scan finds the first free task of the class, or none |
| Scheds.Scheduler.AddTaskToScheduler | src/core/ps_sched.c:414-431 | below the maximum the slot at the count, otherwise the first empty one; fails only when there is none |
| Scheds.Scheduler.CreateTask | src/core/ps_sched.c:733-809 | keeps slots, live tasks and namespaces in step; fails, and creates, as CreateKeeps says, roll-back included |
| Scheds.Scheduler.DestroyTask | src/core/ps_sched.c:812-846 | keeps them in step and does what DestroyKeeps says |
| ReadyTables.UnmapIsLowest | src/core/ps_sched.c:58-80 | the lookup table gives the lowest bit of every non-zero byte |
| ReadyTables.SetAdds | src/core/ps_sched.c:110-119 | setting adds one priority and keeps group bits in step with rows |
| ReadyTables.ClearRemoves | src/core/ps_sched.c:121-138 | clearing removes one priority when its check allows, and clears the group bit exactly when the row is empty |
| ReadyTables.SelectIsMostUrgent | src/core/ps_sched.c:140-145 | the selected priority is ready and none that was ready when the group was read is more urgent, whatever interrupts set between the two reads |
| ReadyTables.IdleStaysReady | src/core/ps_sched.c:314-323 | over every run after boot the idle bit stays set, so there is always something to select |
| ReadyTables.ReadyTable.SetReadyTask | src/core/ps_sched.c:110-119 | the ready priorities gain exactly this one, with group bits in step |
| ReadyTables.ReadyTable.ClrReadyTask | src/core/ps_sched.c:121-138 | the ready priorities lose exactly this one when its check allows, with group bits in step |
| ReadyTables.ReadyTable.GetReadyTask | src/core/ps_sched.c:1353-1388 | with interrupts between the two reads the priority returned is ready and no larger than any ready before |

## Left out

Assumed of the callers and the hardware:

- Frames lie in system memory above all tile buffers, tile buffers are apart, and dimensions and addresses fit their integer types, so integers are unbounded except for the 16-bit line count of the ISP interrupt.
- Transfers finish in the order they were issued; the bytes of one transfer arrive together.
- A requested tile is idle, and a previous tile belongs to the same frame, is another tile, and was requested and not touched since; it may still be loading.
- The fast path is stated for single-channel tiles that meet an unpadded frame, with a vector size that is a multiple of four.
- Allocation sizes are positive, alignments at least 1, their sum does not wrap, there are at most 32 block headers, and the start of the pool is not passed to free when the headers live there.
- For 3D tiles the polled tile is the head of its queue (the ready check mixes two tile pointers otherwise) and every temporary row can be allocated (the ready check tests for a null pointer, while a failed allocation hands it -1).
- For the line rings a frame is whole entries and the ring no longer than a frame. The hardware writes lines one after the other around the ring; the interrupt of an entry is served before the hardware begins the next entry, and a frame's before the next frame's first line.
- A task moves a recovery on only in the overflow and recovering statuses, as `ps_sched.c:648-658` does. A take reads its lines at the moment of the pop, the last at which the task may still be using them.
- A failed registration of a namespace stands for any failure of the memory allocator, which is a parameter.

Not modelled, or modelled more coarsely:

- XvMems.XvMem.Alloc: the counter `_unused_bytes` is left out; it does not balance, since allocation adds to it, also on the path that runs out of headers, and free adds again.
- XvMems.XvMem.ToggleBit: bits of the header vector are booleans of one word, so masks and runs of bits are left out; the block array is one array for each field of a block.
- XvMems.XvMem.Alloc: the alignment test `align & (align - 1)` is the predicate PowerOfTwo; PowersAre says which numbers those are.
- XvMems.XvMem.LeadingZeroCount: from position 0 of one word, by a scan in place of `w & -w`; it finds the same bit.
- TileManagers.TileManager.UpdateDimensions: moves free tiles only; the macro also moves one that is busy or still being read, and then nothing is promised of its pixels.
- TileManagers.TileManager.ReqTileTransferIn: takes free tiles and a ring with room only; what the source does otherwise is said by ReuseCountIsExactIffFree and RingPushIsExact.
- TileManagers.TileManager.DescDone: the engine is one that finishes any number of transfers before it answers, in order; the emulation's answer, which alternates, is not modelled.
- TileManagers3D.TileManager3D.ReqTileTransferIn3D: queueing the tile and its DMA index are left out.
- FastStores.XvPadEdges: a tile outside the frame in edge mode is left out; the source's side stores then use widths larger than the tile.
- NsMaps.CmdNsMap.Dispatch: states no result when the compared slot is outside the array, as the source then reads memory that is not the map's; ComparesOutside says exactly when.
- TileManagers.TileManager.CheckTileReady: a tile outside the frame in edge mode carries no promise about its pixels, as the code leaves them alone.
- TileManagers3D.TileManager3D.CheckTileReady3D: one tile on values, so the queue of 3D tiles and a second tile being padded at the same time are not modelled.
- Vector intrinsics are byte stores of at most one vector; alignment registers are not modelled.
- Tile geometry is computed by functions, clipping and the reuse cases being expressions; the transfers they yield are queued by the class.
- Error flags and argument checks of the tile manager, interrupt-on-completion flags and logging.
- Predicated transfers, transfers out, tile and frame slot counters, and buffers in more than one memory bank.
- The vipre driver, register access, cache maintenance, and interrupt attach and detach.
- Outside the normal status the post-ISP's task may write anything anywhere in the ring; an entry it had begun is given up by a reset.
- ISP frame formats and the counter of interactions; only the line rings, status and recovery are modelled.
- Host handshake, command buffers, TLV parsing, library loading, profiling, and the configuration of algorithms, front ends and back ends.
- The emptiness check of the idle task is taken as written and never replaced; task ids in requests are not negative, and the ready bitmap's bytes are unsigned.
