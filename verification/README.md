# Verification of the memory, list and socket core

Dafny models of the stateful C code below `src/ffi`, with proofs. `dafny verify dfyconfig.toml`
checks everything.

| files | code | what is proved |
|---|---|---|
| `heap_blocks.dfy`, `heap_memory.dfy`, `heap.dfy`, `heap_runs.dfy` | the heap of `lwip/mem.c` (the branch that is neither libc malloc nor pools) | one word array holds headers and user data; the routines that rewrite it follow a list of blocks; the laws of that list over whole runs |
| `pbuf.dfy`, `pbuf_chain.dfy`, `datagram.dfy` | reference counts, freeing, copying and trimming in `lwip/pbuf.c`; the datagram copy loop of `lwip/sockets.c` | counts equal pointers; chains are byte strings |
| `netconn.dfy`, `tcp_call.dfy`, `tcp_recv.dfy`, `tcp_errors.dfy` | the receive path of `lwip/api.c` and `lwip_recv_tcp` | reading refines taking the next bytes off a stream, with peeks, leftovers, window credit, errors and the FIN; when an error that a call keeps back comes again |
| `slots.dfy` | the `fd_used` / `fd_free_pending` protocol of `lwip/sockets.c` | a state machine over all interleavings of threads |
| `ring.dfy`, `ring_rotation.dfy` | the FreeRTOS list, `os/list.c` and `os/list.h` | the links form a ring; sorted insertion; the order of round-robin service |
| `ip4_text.dfy` | `ip4addr_aton` | the loops accept exactly a grammar |
| `spiffs_index.dfy` | the page and span macros of `spiffs_nucleus.h` | bijections, and exactly when two of the macros are right |

## How the models are built

**Heap.** `ram` is an array of 32-bit words named by byte offset; a header is three words in front
of the data it heads, in the same array, and pointers are distances from `ram`. `usize` is 32 bits,
alignment 4, the header 12 bytes, and `MEM_SIZE_ALIGNED` any multiple of 4 from 24 to 2^31.
`blocks` is a ghost list tied to the words by the invariant. With `allowOther`
(`LWIP_ALLOW_MEM_FREE_FROM_OTHER_CONTEXT`) every gap in a critical section of `mem_malloc` lets
other contexts free any of the blocks they own (`Window`); `mem_trim` in a gap is not included,
since it may raise the flag without changing anything and the scan would then have no bound.
Owners write their data into the same array (`Heap.Store`), and runs of calls include such writes. The
shipped configuration uses libc malloc (`src/ffi/lwip/lwipopts.h:152`), so this is a model of the
source branch. The block list of a coalesced heap turns out to be determined by the live blocks
(`UsedBlocksDetermineHeap`), from which the undoing of `mem_malloc` by `mem_free` and the
independence of the order of frees follow.

**Packet buffers.** The payload memory of a pbuf is a constant, since nothing on the receive path
writes it; `payload` is a position in it. `Pool` holds the set of allocated pbufs and the multiset of
pointers to them from outside chains, as ghost state.

**TCP receive.** `Link` is the value of the receiving side of a netconn; `MetOf`, `FetchError` and
`FetchAfter` say what a fetch meets, reports and leaves. `wire` is what the stack is to do, at moments
chosen freely: post a message, set the pending error, take the pcb away, mark the mailbox closed. It does
part of that just before a fetch, after the fetch has decided between trying and waiting. `Plan` adds to
it, and the stream is the leftover, the mailbox and the data still to be posted. Every call hands out
the ghost `seen`, the receiving side as its last fetch found it. The receive timeout is a fetch that
finds nothing. No data comes behind the closing; other messages may.

**Socket slots.** Each region between `sys_arch_protect` and `sys_arch_unprotect` is one step, and
so is each access to a slot outside of them: a receive call looks at `lastdata`, fetches, and stores
what it fetched in three steps. That the regions are atomic is an assumption: in this port the
masking of interrupts is commented out (`src/ffi/os/port.c:173-185`). One thread at a time receives from
a socket (`src/ffi/lwip/opt.h:1918-1925` asks for no more than one). A use of the API that looks up a socket
twice counts as two threads.

**Lists.** The ghost `ring` is the end marker followed by the items; `Valid` ties all links, containers,
the count and the index to it, and every operation keeps it, so it holds after any sequence. `Names`
says of any set of nodes that exactly the items on the ring name the list as their container.

## Where the code and its comments differ

- `vListInsertEnd` (`src/ffi/os/list.c:69-71`, `src/ffi/os/list.h:250-258`) is said to put the item last
  in the order of service. It does if and only if the index is on the end marker
  (`Rotation.InsertEndIsLastIff`); else the item the index is on comes after it, as in the run
  `Rotation.LastIsFirst`.
- `lwip_recv_tcp` (`src/ffi/lwip/sockets.c:437-451`) keeps back an error it meets after some data, and
  trusts that the next call gets the same one. `TcpErrors.ReadAgain` says exactly when it does:
  `ComesAgain`, a condition on the mailbox, its flags and the pending error. A FIN that was
  put off is told by the next call as the end of the stream. With an empty mailbox a pending error
  is lost, since `netconn_err` resets it (`src/ffi/lwip/api.c:1081-1093`);
  `TcpErrors.PendingErrorLost` is such a run. An error message has left the mailbox; it comes again only if what is behind it, or the pending error, happens to be the same error.
- `MSG_PEEK` (`src/ffi/lwip/sockets.c:482-503`) leaves data where it is, but a peek that finds none is not
  idle: its fetch takes an error message or the pending error away, and tells the FIN, after which the
  mailbox is gone and the next read fails instead of returning 0 (`TcpReceive.Sock.PeekThenRead`,
  `TcpErrors.PeekTakesFin`). `TcpErrors.FailAgain` says exactly when the next call tells the same error.
- `tryget_socket` (`src/ffi/lwip/sockets.c:151-160`) looks at neither `fd_free_pending` nor the netconn: a
  thread can look up a socket that another one is closing, and goes on with a netconn that
  `netconn_delete` has already deleted (`Slots.DeletedIsFound`, a run in `Slots.DeletedCanBeFound`).
- `alloc_socket` (`src/ffi/lwip/sockets.c:209-212`) says that the slot is not yet known to anyone when
  it resets `lastdata`. A thread with a descriptor kept from an earlier socket may already use it;
  `Slots.LosesIff` says exactly when a buffer is lost, `Slots.EarlyReceiveLoses` gives a run. At rest every
  buffer has been released if and only if no step of the run was one of these (`Slots.EverythingReleasedIff`).
- `SPIFFS_CHECK_MAGIC_POSSIBLE` (`src/ffi/spiffs_nucleus.h:226-229`) looks at a remainder, and is right exactly
  under the condition of `SpiffsIndex.MagicCheckRightIff`; when entries fill a page,
  `SpiffsIndex.MagicCheckRightIffCounts` states it in the pages of a block and the entries of a page.
  Powers of two and the shipped sizes meet it. The rule of the layout comment
  (`src/ffi/spiffs_nucleus.h:23-24`) is not enough: with pages of 258 bytes and 256 of them in a block
  the check passes and there is no room (`SpiffsIndex.LayoutRuleIsNotEnough`).
- `SPIFFS_OBJ_LOOKUP_PAGES` is said to be the number of pages needed to index the pages of a block
  (`src/ffi/spiffs_nucleus.h:47-49`), and rounds down. `SpiffsIndex.RoomForEntriesIff` says exactly when the
  entries of a block fit in them; in the same example 126 of its 255 entries do not (`SpiffsIndex.EntriesMayNotFit`).
- The shipped page size 0xff does not divide the block size (`src/ffi/spiffs.h:69-70`), so that page
  addresses by block and by page index differ from block 1 on.
- `fd_used` has eight bits, and only an assertion guards it (`src/ffi/lwip/sockets.c:70-71`). The counts
  are right throughout a run if and only if no lookup comes to a slot with 255 users
  (`Slots.CountsRightIff`); 256 threads can make it wrap (`Slots.CountCanWrap`).
- `plug_holes` adjusts `lfree` when it merges; seen from `mem_free` the hint is never above
  the lower block, and in `mem_sanity` three of the alignment assertions are misparenthesised so that they
  always hold (`src/ffi/lwip/mem.c:565,574,575`); the model checks the alignment they mean.

## Model

| member | source | states |
|---|---|---|
| Heap.Heap.constructor | src/ffi/lwip/mem.c:501-531 | mem_init sets up one free block over the whole heap, the end marker, and the hint on the block; the heap invariant holds |
| Heap.Heap.MemMalloc | src/ffi/lwip/mem.c:816-962 | ends although other contexts may free their blocks in every gap of its critical section; keeps the invariant; fails for 0, for sizes above that of the heap, and else exactly when no free block has so many bytes at the moment the scan ends, when exactly the blocks in `gone` had been freed by others; otherwise takes the first fit of that moment; adds exactly one live block, which nobody else owns; changes no data word of any live block; counts the error, the peak of that moment, and no illegal call |
| Heap.Heap.MemFree | src/ffi/lwip/mem.c:602-672 | refused pointers change nothing but the illegal counter; a live block is released: it alone leaves the live set, it merges with free neighbours on both sides, and no data word of another live block changes; freeing the same pointer once more is refused |
| Heap.Heap.MemTrim | src/ffi/lwip/mem.c:684-806 | NULL, the pointer itself or the shrunk block in exactly the cases of the code; the first newsize bytes of the block and all data of other live blocks are kept, also where the moved free header overlaps the old one |
| Heap.Heap.MemSanity | src/ffi/lwip/mem.c:553-593 | the walk ends and every assertion holds in every state the invariant allows |
| Heap.Heap.PlugHoles | src/ffi/lwip/mem.c:459-496 | joins a freed block with free neighbours on both sides; the hint stays at the start of the block that contains what it pointed to |
| Heap.Heap.Absorb | src/ffi/lwip/mem.c:472-495 | one merge: header words, back link and hint |
| Heap.Heap.Discard | src/ffi/lwip/mem.c:655-671 | mem_free past its checks: flag, hint, count and merge |
| Heap.Heap.Scan | src/ffi/lwip/mem.c:849-874 | the scan from the hint that stops size bytes before the end finds the first fit of the whole heap, or starts again only because another context has freed one more block |
| Heap.Heap.NoFitBehind | src/ffi/lwip/mem.c:856-857 | stopping at MEM_SIZE_ALIGNED - size misses no fit |
| Heap.Heap.Window | src/ffi/lwip/mem.c:859-870 | a gap in the critical section: any number of frees by other contexts keep the invariant, take exactly their blocks, and are noticed by the flag |
| Heap.Heap.TakeBlock | src/ffi/lwip/mem.c:872-913 | split or whole: the invariant holds again, except that the hint may be on the block just taken |
| Heap.Heap.TakeSplit | src/ffi/lwip/mem.c:877-903 | the split writes only header words and counts size plus header |
| Heap.Heap.TakeWhole | src/ffi/lwip/mem.c:904-913 | the near fit hands out the whole block and counts all of it |
| Heap.Heap.AdjustLfree | src/ffi/lwip/mem.c:914-936 | the hint is exact again at the end, each restart being paid for by a freed block; the new block stays live |
| Heap.Heap.NextFree | src/ffi/lwip/mem.c:918-935 | one search for the next free block: finished, or disturbed by a free |
| Heap.Heap.TrimBlock | src/ffi/lwip/mem.c:737-805 | mem_trim on a live block: the list is the old one with this block shortened |
| Heap.Heap.TrimIntoFree | src/ffi/lwip/mem.c:739-767 | the free successor moves down; data and the kept bytes are untouched |
| Heap.Heap.TrimOff | src/ffi/lwip/mem.c:768-790 | the rest becomes a block of its own |
| Heap.Heap.PlaceRest | src/ffi/lwip/mem.c:749-764 | exactly which header words the cut writes, and their values |
| Heap.Heap.BlocksAreLinked | src/ffi/lwip/mem.c:536-550 | mem_link_valid holds for every block |
| Heap.Heap.LiveIsNotRefused | src/ffi/lwip/mem.c:602-653 | no check of mem_free ever rejects a live block |
| Heap.Heap.FreeIsRefused | src/ffi/lwip/mem.c:635-642 | a pointer to a free block is refused |
| Heap.Heap.StrayIsRefused | src/ffi/lwip/mem.c:607-629 | so are null, unaligned pointers, and those too near to an end of the heap |
| Heap.Heap.HintIsExact | src/ffi/lwip/mem.c:656-659 | between calls lfree is the lowest free block, or ram_end |
| Heap.Heap.Store | src/ffi/lwip/mem.c:807-816 | a step of the client, not of mem.c: the owner of the memory mem_malloc returned writes to it, in the array that holds the headers too; the invariant and all other data stay |
| Heap.AlignSize | src/ffi/lwip/memp.h:58-60 | rounds up to four, and to 0 exactly for the three sizes above 2^32 - 4 |
| Heap.RequestSize | src/ffi/lwip/mem.c:832-836 | 12 bytes, or the least multiple of four that is enough, and smaller than the request exactly when rounding wraps |
| Heap.TooLarge | src/ffi/lwip/mem.c:840-842 | requests are turned down beforehand exactly if they are larger than the heap |
| Heap.FailsIff | src/ffi/lwip/mem.c:826-873 | a request fails exactly if every free block has fewer bytes |
| HeapBlocks.LiveBlocksAreDisjoint | src/ffi/lwip/mem.c:555-592 | live blocks are aligned, inside the heap and pairwise disjoint |
| HeapBlocks.BytesConserved | src/ffi/lwip/stats.h:310-314 | the bytes counted as used and those of the free blocks make up the heap |
| HeapBlocks.Taken | src/ffi/lwip/mem.c:876-913 | the block handed out begins where the free one did, is large enough, and has less than a minimal block to spare |
| HeapBlocks.TakeKeeps | src/ffi/lwip/mem.c:872-913 | allocation keeps tiling and coalescing, adds one block to the live ones, and counts its bytes |
| HeapBlocks.ReleaseKeeps | src/ffi/lwip/mem.c:655-666 | freeing keeps them, removes one block, uncounts its bytes |
| HeapBlocks.ShrinkKeeps | src/ffi/lwip/mem.c:739-796 | trimming keeps them in all three cases and uncounts what was cut off |
| HeapBlocks.PlugKeeps | src/ffi/lwip/mem.c:459-496 | merging around the freed block makes the whole list coalesced again |
| HeapBlocks.UsedBlocksDetermineHeap | src/ffi/lwip/mem.c:459-496 | a coalesced heap is determined by its live blocks |
| HeapBlocks.MallocThenFreeIsIdentity | src/ffi/lwip/mem.c:872-936 | releasing a block just taken restores the list, split or not |
| HeapMemory.Relink | src/ffi/lwip/mem.c:459-495 | rewriting the headers of a stretch and the back link behind it relinks the whole list |
| HeapMemory.CutStep | src/ffi/lwip/mem.c:749-764 | the cut of mem_malloc and mem_trim, in words |
| HeapMemory.MergeStep | src/ffi/lwip/mem.c:475-481 | the merge, in words |
| HeapMemory.HintIsLowestFree | src/ffi/lwip/mem.c:656-659 | the hint condition means the lowest free block, both directions |
| HeapMemory.ShrinkHint | src/ffi/lwip/mem.c:746-748 | where mem_trim leaves the hint is right |
| HeapRuns.RunKeeps | src/ffi/lwip/mem.c:459-962 | after every run of calls from mem_init on, the blocks tile the heap and no two free ones touch |
| HeapRuns.HistoryLeavesNoTrace | src/ffi/lwip/mem.c:459-962 | two runs that leave the same blocks live leave the same heap |
| HeapRuns.FreeAllRestoresFresh | src/ffi/lwip/mem.c:459-672 | freeing all live blocks in any order ends in the single block of mem_init |
| HeapRuns.MallocIsLowestFit | src/ffi/lwip/mem.c:826-913 | mem_malloc fails exactly when the request is 0 or no free block has so many bytes; otherwise the new block starts where the lowest such block does, and has less than a minimal block more than asked for |
| HeapRuns.TrimGivesBack | src/ffi/lwip/mem.c:692-790 | mem_trim leaves a block that is smaller than asked for; otherwise it keeps the bytes asked for and gives the rest back, all of it if a free block follows |
| HeapRuns.StoredStays | src/ffi/lwip/mem.c:602-962 | a word that an owner writes into its block is still there after any run of calls and writes about other blocks |
| HeapRuns.Call | src/ffi/lwip/mem.c:602-962 | each call on the word array does what the block list says, and keeps the data of all blocks it is not about |
| HeapRuns.Replay | src/ffi/lwip/mem.c:602-962 | so does every run of calls and of writes to live data |
| HeapRuns.MallocThenFree | src/ffi/lwip/mem.c:602-962 | on the word array: mem_malloc then mem_free restores blocks, lfree and count and keeps all data |
| HeapRuns.FreeEverything | src/ffi/lwip/mem.c:602-672 | on the word array: freeing every live block once, in any order, ends in the block list, hint and count of mem_init |
| Pbufs.Pool.Free | src/ffi/lwip/pbuf.c:35-107 | keeps ref equal to the number of pointers for every pbuf; frees exactly the prefix of pbufs whose only pointer was given up; no pointer to a freed pbuf remains; ends, and returns how many were freed, up to a multiple of 256 |
| Pbufs.Pool.GiveUp | src/ffi/lwip/pbuf.c:58-98 | one turn of the loop: the count of one pbuf falls, and it goes exactly if it was 1 |
| Pbufs.GraphForgets | src/ffi/lwip/pbuf.c:60-95 | deallocating the pbuf whose last pointer is given up keeps all counts right |
| Pbufs.GraphKeeps | src/ffi/lwip/pbuf.c:96-104 | lowering a count above 1 does too |
| Pbufs.GraphCuts | src/ffi/lwip/pbuf.c:142-158 | so does cutting a link while holding on to what it led to |
| Pbufs.HeldPointersReachAll | src/ffi/lwip/pbuf.h:218-223 | without cycles every allocated pbuf is reachable from a held pointer |
| PbufChains.CopyPartial | src/ffi/lwip/pbuf.c:110-139 | copies exactly the bytes offset up to offset + len of the concatenated payloads, as far as there are any, and writes nothing else |
| PbufChains.RemoveHeader | src/ffi/lwip/pbuf.c:161-191 | hides the first bytes of one buffer, or fails in exactly the cases of the code |
| PbufChains.FreeHeader | src/ffi/lwip/pbuf.c:142-158 | the chain that is left has the old bytes without the first size ones and right tot_len fields; each used-up pbuf loses one pointer and is freed exactly if that was its last one, and no other count changes |
| PbufChains.SolePointersGone | src/ffi/lwip/pbuf.c:142-158 | used-up pbufs with a single pointer each are all freed |
| PbufChains.DropFirst | src/ffi/lwip/pbuf.c:147-151 | a used-up buffer is cut off and given up |
| PbufChains.TrimWhole | src/ffi/lwip/pbuf.c:145-151 | the loop step for a used-up buffer: one more pbuf that has lost a pointer |
| PbufChains.TrimPart | src/ffi/lwip/pbuf.c:152-155 | the last step hides the rest of the bytes |
| PbufChains.TotLenIsViewLength | src/ffi/lwip/pbuf.h:198-205 | the invariant of tot_len makes it the number of bytes of the chain |
| PbufChains.ChainUnique | src/ffi/lwip/pbuf.h:198-223 | a chain is determined by its first pbuf |
| Datagrams.CopyToIovs | src/ffi/lwip/sockets.c:605-619 | fills the buffers in order, wherever they lie in memory, each with its own stretch of the datagram, and changes nothing else; counts min(datagram, sum of iov_len) bytes |
| Datagrams.LastBufferWins | src/ffi/lwip/sockets.c:607-619 | also where buffers overlap: every byte of memory is that of the last buffer written over it, or as before |
| Datagrams.SharesAreDatagram | src/ffi/lwip/sockets.c:607-619 | buffers that do not overlap hold, read in order, the datagram as far as there is room |
| Netconns.Netconn.RecvData | src/ffi/lwip/api.c:528-609 | fetches the first message of the mailbox, or gives exactly the error of the code; a fetch that tried resets the pending error, one that waited does not look at it; waits exactly when it is allowed to and the mailbox is empty; never loses a message |
| Netconns.Netconn.RecvDataTcp | src/ffi/lwip/api.c:638-707 | the FIN state machine: what is fetched, which error is given, what becomes of the pending error, when a FIN is put off and when it is told, and what is acknowledged at once |
| Netconns.Netconn.HandleFin | src/ffi/lwip/api.c:686-703 | telling the FIN closes the mailbox; without a pcb it is the pending error, or a reset |
| Netconns.Netconn.TakeIn | src/ffi/lwip/api.c:669-703 | acknowledges what was taken; a closing is put off, or told |
| Netconns.FetchKeeps | src/ffi/lwip/api.c:638-707 | a fetch keeps the receiving side in order, and succeeds exactly on data |
| TcpReceive.Sock.constructor | src/ffi/lwip/sockets.c:190-226 | a new socket holds no leftover, and its stream is what its netconn has already received, as after accept |
| TcpReceive.Sock.Plan | src/ffi/lwip/api.c:528-609 | whatever the stack is to do more, the socket stays in order, and a data message appends its bytes to the stream |
| TcpReceive.Sock.RecvTcp | src/ffi/lwip/sockets.c:409-506 | returns the next bytes of the stream in order, removes exactly those unless peeking, acknowledges as many; short only when no more data was in the mailbox; leaks no pbuf; errno is the error of the fetch that ended the call, and set exactly if no data is returned; 0 exactly at the FIN, only with the stream empty, or when the pending error is the closing; the connection afterwards, with its pending error; it waits at most once, and only with nothing to return |
| TcpReceive.Sock.ReadLoop | src/ffi/lwip/sockets.c:418-498 | the do loop: what is read when it ends by itself, and when a fetch gives an error |
| TcpReceive.Sock.NextPbuf | src/ffi/lwip/sockets.c:423-458 | the leftover, or else the next message; with the error and the connection after the fetch |
| TcpReceive.Sock.Turn | src/ffi/lwip/sockets.c:418-500 | one turn: min(left, tot_len) bytes copied to the right place and consumed unless peeking |
| TcpReceive.Sock.CopyOut | src/ffi/lwip/sockets.c:460-476 | writes the next bytes of the stream to mem + recvd |
| TcpReceive.Sock.TrimHead | src/ffi/lwip/sockets.c:486-491 | the leftover loses exactly its first copylen bytes |
| TcpReceive.Sock.DropHead | src/ffi/lwip/sockets.c:491-496 | a used-up pbuf chain is freed whole |
| TcpCalls.NoOverflow | src/ffi/lwip/sockets.c:468-471 | the overflow clamp never applies |
| TcpReceive.Sock.PeekThenRead | src/ffi/lwip/sockets.c:437-503 | a peek returns what the next read starts with; a peek that meets the FIN makes the next read fail |
| TcpReceive.Sock.ReadAll | src/ffi/lwip/sockets.c:409-506 | over any sequence of reads and peeks: bytes returned, then what is left, is the stream; the credit is the bytes returned |
| TcpReceive.Sock.ReadThenFin | src/ffi/lwip/sockets.c:437-451 | the call that meets the FIN after data returns all the data, the next returns 0, and the one after that fails; without a pcb the next one fails |
| TcpReceive.FreesWholeChain | src/ffi/lwip/pbuf.c:52-106 | a chain that only the socket points to is freed to its end |
| TcpCalls.GoesOn | src/ffi/lwip/sockets.c:418-500 | a turn that read something leaves the call under way: nothing but data taken, and no less than the first pbuf holds |
| TcpCalls.StopsWith | src/ffi/lwip/sockets.c:437-456 | a turn that met an error ends the call with that error |
| TcpCalls.EndMeans | src/ffi/lwip/sockets.c:437-456 | how a call ended, read off the connection: when the FIN is told or put off, when the mailbox is gone |
| TcpCalls.ComesAgainIff | src/ffi/lwip/sockets.c:437-451 | the next fetch gives the error that was kept back if and only if ComesAgain holds of the connection as the dropping fetch found it; for every mailbox |
| TcpCalls.TellsAgainIff | src/ffi/lwip/sockets.c:437-456 | the same for a fetch whose error was told, whether it tried or waited |
| TcpCalls.PendingErrorIsLost | src/ffi/lwip/api.c:549-554 | with an empty mailbox the pending error does not come again |
| TcpCalls.ErrorMessageMayComeAgain | src/ffi/lwip/sockets.c:437-451 | an error message comes again when the pending error is the same, and does not when there is none |
| TcpErrors.ReadAgain | src/ffi/lwip/sockets.c:437-451 | two calls between which the stack does nothing: the second reports the error the first one kept back if and only if ComesAgain holds; and, if it did nothing at all, that is a condition on the connection before the first call |
| TcpErrors.FailAgain | src/ffi/lwip/sockets.c:437-456 | a call, peeking or not, that tells an error, and a second one: it tells the same error if and only if TellsAgain holds |
| TcpErrors.PeekTakesFin | src/ffi/lwip/sockets.c:437-456 | a run: the peer has closed, a peek returns 0, and the read behind it -1 |
| TcpErrors.PendingErrorLost | src/ffi/lwip/sockets.c:437-451 | a run: a byte and a pending reset; the first call returns the byte, the second one would block |
| TcpErrors.QuietRead | src/ffi/lwip/api.c:520-609 | a call with nothing left over, while the stack does nothing: which error it reports, field by field, and what becomes of mailbox, FIN and pending error |
| TcpErrors.ClosedIsFinal | src/ffi/lwip/api.c:543-566 | from a connection marked closed a fetch without message and pending error says ERR_CONN, whatever the stack did meanwhile; only a blocking, open one without error times out |
| Slots.LwipSock.FreeSocket | src/ffi/lwip/sockets.c:234-262 | not the last user: only the mark; the last user: the slot is cleared and its data handed to the caller |
| Slots.LwipSock.DoneSocket | src/ffi/lwip/sockets.c:88-99 | the last user of a marked slot frees it |
| Slots.AllocSocket | src/ffi/lwip/sockets.c:190-226 | undisturbed, the lowest slot without netconn and user, whatever its old mark, or -1 if there is none; it gets the new netconn, one user, no mark and no data; no other slot changes |
| Slots.StepKeeps | src/ffi/lwip/sockets.c:67-262 | every step of every thread keeps the invariant, unless it makes fd_used wrap |
| Slots.CountsAreUsers | src/ffi/lwip/sockets.c:67-104 | in every interleaving in which fd_used never wraps it is the number of users, the slot of a thread past get_socket points to a netconn, and a marked slot has a user |
| Slots.CountsRightIff | src/ffi/lwip/sockets.c:67-104 | fd_used is right all through a run if and only if no lookup comes to a slot with 255 users |
| Slots.FewThreadsNeverCrowd | src/ffi/lwip/sockets.c:67-81 | fewer than 256 threads never do that |
| Slots.CountCanWrap | src/ffi/lwip/sockets.c:67-81 | a run of 256 lookups after which the slot looks vacant while all threads use it |
| Slots.SlotChangesHands | src/ffi/lwip/sockets.c:190-262 | a slot is taken or cleared only while no other thread uses it, and cleared only by a close or by the last user after a close |
| Slots.AllocGives | src/ffi/lwip/sockets.c:204-208 | the slot taken gets a netconn of the kind asked for |
| Slots.ConnStays | src/ffi/lwip/sockets.c:67-262 | no step changes the netconn of a slot but by clearing it |
| Slots.FetchedByKind | src/ffi/lwip/sockets.c:190-262 | in every run, what is fetched from a slot between its allocation for one kind of socket and its clearing is released by the routine for that kind, if at all |
| Slots.ClosedSlotIsFreed | src/ffi/lwip/sockets.c:88-99 | after a close the slot is freed by the time its last user is done |
| Slots.StaleLookupIsHarmless | src/ffi/lwip/sockets.c:151-160 | looking up a free slot only counts up and down again, also with an old fd_free_pending |
| Slots.DeletedIff | src/ffi/lwip/sockets.c:776-798 | when the netconn a slot points to is a deleted one: from netconn_delete in lwip_close on, until the slot is cleared |
| Slots.DeletedIsFound | src/ffi/lwip/sockets.c:151-160 | in every state with such a slot a lookup ends past get_socket with the deleted netconn |
| Slots.DeletedCanBeFound | src/ffi/lwip/sockets.c:151-160 | a run of two threads in which that happens |
| Slots.ReleasedOnce | src/ffi/lwip/sockets.c:249-260 | no buffer is released twice, and each by the routine for its protocol |
| Slots.AllReleased | src/ffi/lwip/sockets.c:249-260 | at rest every buffer was released or lost |
| Slots.LosesIff | src/ffi/lwip/sockets.c:209-212 | a step loses a buffer if and only if it is the reset of lastdata in alloc_socket while a buffer is there that nobody reads, or the end of a read that finds lastdata reset |
| Slots.NoEarlyNoLoss | src/ffi/lwip/sockets.c:190-226 | if no thread receives on a slot while alloc_socket is between its two halves, nothing is lost |
| Slots.EverythingReleased | src/ffi/lwip/sockets.c:190-262 | then, from start to rest, every buffer is released exactly once by the right routine |
| Slots.EverythingReleasedIff | src/ffi/lwip/sockets.c:190-262 | from start to rest, in any interleaving: every buffer is released if and only if no step of the run loses one |
| Slots.EarlyReceiveLoses | src/ffi/lwip/sockets.c:209-212 | a run of seven steps in which such a receive loses a buffer |
| Ring.LinkedList.constructor | src/ffi/os/list.c:37-55 | an empty ring: the end marker linked to itself; no node that exists names the list |
| Ring.LinkedList.InsertEnd | src/ffi/os/list.c:65-82 | the item goes in front of the index; all links and the count are right again, and exactly the items name the list |
| Ring.LinkedList.Insert | src/ffi/os/list.c:85-144 | ends, and puts the item behind all smaller or equal items and in front of a larger one; exactly the items name the list |
| Ring.LinkedList.FindPlace | src/ffi/os/list.c:91-132 | ends, and finds the node behind which the value goes; the branch for portMAX_DELAY finds the same place |
| Ring.LinkedList.Splice | src/ffi/os/list.c:134-143 | the wiring of the new item |
| Ring.LinkedList.Unlink | src/ffi/os/list.c:147-170 | the item leaves the ring, the index moves back if it was on it, and exactly the items left name the list |
| Ring.LinkedList.Remove | src/ffi/os/list.c:147-170 | the same, from the item alone |
| Ring.LinkedList.NextEntry | src/ffi/os/list.h:149-160 | the next item, never the end marker |
| Ring.SortedInsert | src/ffi/os/list.c:91-98 | a sorted list stays sorted, and equal values keep their order of insertion |
| Ring.Spliced | src/ffi/os/list.c:72-79 | wiring a node in between two neighbours gives the longer ring |
| Ring.Unspliced | src/ffi/os/list.c:153-154 | bypassing a node gives the shorter ring |
| Rotation.CallsAreOrder | src/ffi/os/list.h:149-160 | n calls return the first n items of the order |
| Rotation.FullRoundIsFair | src/ffi/os/list.h:149-160 | as many calls as items return each item once |
| Rotation.InsertEndOrder | src/ffi/os/list.c:65-82 | what vListInsertEnd does to the order of the coming calls |
| Rotation.InsertEndIsLastIff | src/ffi/os/list.h:250-258 | the inserted item is the last one returned if and only if the index is on the end marker |
| Rotation.LastIsFirst | src/ffi/os/list.c:65-82 | a run on a list: the item inserted at the end is returned before the one the index is on |
| Rotation.InsertEndWait | src/ffi/os/list.c:65-82 | insertion delays an item only if the index is on it, by one call |
| Rotation.RemoveOrder | src/ffi/os/list.c:147-170 | removal leaves the rest of the order as it was |
| Rotation.RemoveWait | src/ffi/os/list.c:147-170 | removal makes no other item wait longer |
| Rotation.FullRound | src/ffi/os/list.h:149-160 | the calls on the list itself return the order |
| Rotation.InsertEndRotates | src/ffi/os/list.c:65-82 | vListInsertEnd on the list itself |
| Rotation.RemoveRotates | src/ffi/os/list.c:147-170 | uxListRemove on the list itself |
| Rotation.InsertEndThenRemove | src/ffi/os/list.c:65-170 | removing an item just inserted restores every link and the index |
| Rotation.InsertThenRemoveSorted | src/ffi/os/list.c:85-170 | so does removing an item just put in by vListInsert |
| Ip4Text.Aton | src/ffi/lwip/ip_addr4.c:37-148 | accepts exactly the texts of the grammar, with their value in network order; reads no further than the NUL, writes no further than the third part |
| Ip4Text.AddressIffDenotes | src/ffi/lwip/ip_addr4.c:44-93 | the scan from the left accepts a text if and only if it is one to four numerals with dots between, in range, before white space or the end, and gives the value of these numerals |
| Ip4Text.Digits | src/ffi/lwip/ip_addr4.c:64-74 | the inner loop: all digits there are, 8 and 9 in base 8 too, and their value in 32 bits; WrittenRoundTrip says what that value is |
| Ip4Text.WrapsTogether | src/ffi/lwip/ip_addr4.c:66-69 | cutting to 32 bits at each digit is cutting the whole number |
| Ip4Text.Concoct | src/ffi/lwip/ip_addr4.c:99-142 | the range checks and the combination of the parts |
| Ip4Text.FourBytesRoundTrip | src/ffi/lwip/ip_addr4.c:37-148 | four bytes in decimal with dots give these bytes in memory |
| Ip4Text.WrittenRoundTrip | src/ffi/lwip/ip_addr4.c:52-74 | any number written in base 8, 10 or 16 behind its prefix, in either case of letters and with leading zeros, is read as its low 32 bits |
| Ip4Text.NumeralsAre | src/ffi/lwip/ip_addr4.c:52-74 | which texts are numerals, character by character |
| Ip4Text.Characters | src/ffi/lwip/ip_addr4.c:5-23 | the digits, hexadecimal digits and white space characters |
| Ip4Text.PartsInRange | src/ffi/lwip/ip_addr4.c:82-142 | dotted numerals are an address exactly if there are at most four, each in its range |
| Ip4Text.Loopback | src/ffi/lwip/ip_addr4.c:37-148 | 127.1, 0x7F.1 with a trail, and 0177.1 are the loopback address |
| Ip4Text.ShortTextIsLongText | src/ffi/lwip/ip_addr4.c:76-81 | a.b.c, a.b and a mean the four-part form with the last number split into bytes |
| Ip4Text.BytesOfWord | src/ffi/lwip/ip_addr4.c:135-145 | the bytes of the combined word |
| SpiffsIndex.SpanHasPlace | src/ffi/spiffs_nucleus.h:239-247 | a data span is the first span of its index page plus its entry, and the entry is in range |
| SpiffsIndex.PlaceHasSpan | src/ffi/spiffs_nucleus.h:239-247 | every entry of every index page is the place of one span |
| SpiffsIndex.AsManyAsFit | src/ffi/spiffs_nucleus.h:234-238 | as many pages as fit in a block, and entries in a page of each kind behind its head, and no more |
| SpiffsIndex.EntryHasPage | src/ffi/spiffs_nucleus.h:188-214 | block and entry recover from the page index, which is no lookup page |
| SpiffsIndex.PageHasEntry | src/ffi/spiffs_nucleus.h:182-214 | every page that is no lookup page comes from one entry in range |
| SpiffsIndex.AddressHasPage | src/ffi/spiffs_nucleus.h:194-202 | page and offset recover from the address and the address from them |
| SpiffsIndex.TwoRoutesAgreeIff | src/ffi/spiffs_nucleus.h:191-196 | the two routes to a physical address agree if and only if the block is 0 or pages divide blocks evenly |
| SpiffsIndex.ShippedSizesDisagree | src/ffi/spiffs.h:69-70 | with the sizes shipped they do not |
| SpiffsIndex.MarksEndTheLookup | src/ffi/spiffs_nucleus.h:218-225 | erase count and magic are the last two entries of the last lookup page |
| SpiffsIndex.LookupPages | src/ffi/spiffs_nucleus.h:177-181 | at least one lookup page, and no more than the block has pages |
| SpiffsIndex.LookupPagesFilled | src/ffi/spiffs_nucleus.h:179-181 | the lookup pages are those that ids for all pages of the block would fill, or one |
| SpiffsIndex.LayoutExample | src/ffi/spiffs_nucleus.h:47-55 | the example of the layout comment |
| SpiffsIndex.RoomForEntriesIff | src/ffi/spiffs_nucleus.h:179-187 | when entries fill a page: the lookup pages of a block hold its entries if and only if these fit in one page, or the pages over are no more than the lookup pages |
| SpiffsIndex.EntriesMayNotFit | src/ffi/spiffs_nucleus.h:47-49 | sizes that obey the layout comment, with 255 entries to a block and room for 129 |
| SpiffsIndex.MagicCheckIs | src/ffi/spiffs_nucleus.h:226-229 | for all sizes: the check passes if and only if the entries to spare, less one, are no multiple of the entries of a page |
| SpiffsIndex.RoomForMagicIs | src/ffi/spiffs_nucleus.h:218-225 | when erase count and magic fit behind the entries of a block, counting the odd bytes at the end of pages |
| SpiffsIndex.MagicCheckRightIff | src/ffi/spiffs_nucleus.h:226-229 | for all sizes: the check is right if and only if, where there is room, the entries to spare, less one, are no multiple of the entries of a page, and, where there is none, they are one |
| SpiffsIndex.MagicCheckRightIffCounts | src/ffi/spiffs_nucleus.h:226-229 | when entries fill a page: exactly when it is right, in the pages of a block and the entries of a page |
| SpiffsIndex.MagicCheckRightForSmallBlocks | src/ffi/spiffs_nucleus.h:226-229 | it is when the entries of a block leave one free in a single page |
| SpiffsIndex.ShippedCheckIsRight | src/ffi/spiffs.h:69-70 | so with the sizes shipped |
| SpiffsIndex.MagicCheckRightForPowersOfTwo | src/ffi/spiffs_nucleus.h:226-229 | and when both counts are powers of two |
| SpiffsIndex.LayoutRuleIsNotEnough | src/ffi/spiffs_nucleus.h:23-24 | sizes that obey the layout comment, pass the check, and have no room |
| SpiffsIndex.MagicCheckCanBeWrong | src/ffi/spiffs_nucleus.h:226-229 | it is not for 129 pages of 256 bytes |

## Left out

- Heap.Heap.MemFree: a misaligned, null, outside, free or unlinked pointer is refused as in the code; a pointer into somebody's data that happens to look like a linked header is not covered, since `MayFree` asks for a live block or a refused pointer.
- Heap.Heap.Window: other contexts free in the gap, and do not trim, as said above.
- Heap.Heap.MemTrim: a pointer inside the heap must be a live block, as its assertion asks; `LWIP_ASSERT` counts as compiled out everywhere.
- Heap: the wrap of the statistics counters, `mem_calloc`, the guard bytes, the libc and pool branches, and the mutex itself.
- TcpReceive.Sock.constructor: a received chain has no other owner than the socket, as when the stack hands it over; chains with other owners are in Pbufs and PbufChains.
- TcpReceive.Sock.RecvTcp: the counters and events behind `LWIP_SO_RCVBUF` and `API_EVENT` are left out, and `netconn_tcp_recvd` is the credit it gives.
- Netconns.Netconn.HandleFin: `netconn_close_shutdown` is its effect on the mailbox, which is drained and gone; the message to the TCP/IP thread is not modelled.
- Netconns.Netconn.RecvData: for TCP connections; netbufs of other protocols are not modelled, and pointer checks that fail with ERR_ARG are preconditions by type.
- Datagrams.CopyToIovs: only the copy loop of `lwip_recvfrom_udp_raw`; the source address and the control data it may also write are left out, and `iov_len` is compared before it is cut to 16 bits, as in the code.
- Pbufs.Pool.Free: the four kinds of storage a pbuf may come from are all deallocation.
- Slots.AllocSocket: undisturbed; what other threads may do between its two halves is in the state machine, where the scan is the choice of any vacant slot.
- Slots.CountsRightIff: with more users than the count can hold the model goes on with the wrapped value, as the code does when assertions are compiled out.
- Slots: the state of the netconn itself after `netconn_delete`, `accept`, select and poll counters, and a second close that deletes a netconn once more.
- Ring.LinkedList.NextEntry: returns the item, whose `pvOwner` the macro reads; as for the macro the list must not be empty. The count of items has no width.
- Ip4Text.Aton: always stores the address; the code may be called with a null pointer for it. Bitwise or of disjoint bits is addition.
- SpiffsIndex: the integer widths of addresses and indices, `SPIFFS_MAX_PAGES`, and all code that reads or writes flash.
- The rest of the socket, netconn and RTOS code, and the Rust sources: forwarding code, declarations and hardware access.
