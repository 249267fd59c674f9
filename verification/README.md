# Mellow: a model of its GPU memory, firmware transport, submission and loader logic

Mellow drives an Intel Xe-LPG graphics device. Its hard part is bookkeeping that has to stay right
while hardware, firmware and other clients answer as they please: page tables built inside a fixed
pool, global mappings that may only be taken away once nothing can still translate through them,
a credit-based ring protocol with the GuC firmware, a submission queue whose resource holds are use
counts in a virtual memory manager, an interrupt controller that races with its own filter, a loader
that patches a kernel image, a planner that routes work to providers, and a one-pass translator of
shader expressions. This project models that logic in Dafny and proves what it keeps in every run.

The modules follow the components:

- `PteFormat`, `PageTableSpec`, `PageTableTree`, `PageTable`: the four-level page table. The
  specification is a finite map with a budget of table pages; the class keeps the pool, the words and
  the counters the source keeps, and every call, and every sequence of calls, refines the map.
- `GgttModel`, `GgttSearch`, `GgttBackend`, `Ggtt`, `RegionMemory`, `RegionOwner`: the global mapping
  manager and the GuC region owner that is both its client and its backend. Every entry carries the
  mapping that wrote it, the translation cache may keep or refill entries at any time, and host writes
  go to one host memory.
- `CtRing`, `CtInbox`, `CtLedger`, `CtActions`, `GuCTransport`: the two rings shared with the firmware,
  and the table of outstanding requests with its credits and cookies. The firmware may act between any
  two accesses the host makes to what they share.
- `VirtualMemory`, `MemoryBridge`, `SubmissionModel`, `Submission`: virtual memory, and the submission
  queue stacked on it through the bridge that turns holds into use counts.
- `InterruptRace`, `InterruptTrace`, `Interrupt`: the interrupt controller. The filter may run between any two accesses
  the workloop makes to what they share.
- `ContextRing`: appending commands to a context ring.
- `ZebinBytes`, `ZebinMemory`, `ZebinStage`, `ZebinPayload`: relocation staging into one host memory,
  argument layout and payload.
- `RoutePlanner`: the backtracking route planner.
- `ShaderGrammar`, `ShaderValues`, `GlslTypes`, `ShaderImage`, `ShaderMeaning`, `ShaderJit`: the expression
  translator against a grammar that reads both languages, the types of GLSL, and what expressions of both
  languages mean.
- `Arithmetic`: division, alignment, powers of two, ranges and ring positions.

What hardware, firmware, handlers and the owners outside the modelled files answer is a tape: an arbitrary
function of the number of the question, and where it matters of the question itself. Each statement holds
for every tape, and a contract can say which answers were heard and what follows from them: fence readings
and acceptances of the submission queue, pins, bindings and fences of the virtual memory manager, admissions,
barriers and table accesses of the mapping manager and the transport, register words, times and handler
answers of the interrupt controller, and the descriptors that the firmware shows. A write that reports failure
may or may not have taken effect. What the firmware and the interrupt filter do, and when, is a
nondeterministic choice. Unsigned widths appear where they decide something: 64-bit generations, 32-bit sequence
numbers and use counts, 15-bit cookies, 64-bit relocation sums.

Where the code does more or less than its comments suggest, the model follows the code:

- A register action keeps its context in its third word, but the check for a context that still awaits
  an event compares the second word, which for a register action is always 1
  (`Mellow/XeGuCTransport.cpp:128-134`). `CtActions.OwnContextMissed` and `CtActions.OtherContextCounted`
  give inputs for both failures, and `CtActions.OwnContextTested` says exactly for which actions the
  check does what it is for.
- A GuC request that needs credits is refused when the credits equal its reservation
  (`Mellow/XeGuCTransport.cpp:134`, `CtActions.LastCreditStays`), so one credit always stays unused, which
  `GuCTransport.Transport.Execute` states for every run.
- The overlap test of the image loader adds in 64 bits (`Mellow/XeZebin.cpp:14`), so a range that ends at
  the very top of the address space overlaps nothing. `ZebinStage.BoundTwice` gives two segments bound to
  the same bytes, `ZebinMemory.OverlapExact` says exactly when the test is right, and
  `ZebinStage.BoundDisjoint` what a caller has to see to at the top.
- `(a)[i]` is refused by the expression translator although `a[i]` is accepted.
  `ShaderJit.ParenthesizedArray` gives the input, and `ShaderJit.Parser.Statement` says exactly which
  sources are accepted.
- The interrupt controller can be left armed with delivery masked if the filter is suspended over a
  whole service (`InterruptRace.Overtaken`). `Interrupt.Controller.Execute` gives the exact condition.

## Model

| member | source | states |
|---|---|---|
| PteFormat.EntryRoundTrip | Drivers/PortedXe/XePageTable.cpp:48-80 | flag bits never meet the address field: the address can be read back from any entry |
| PteFormat.PteRoundTrip | Drivers/PortedXe/XePageTable.cpp:58-72 | a leaf entry exists exactly for a 46-bit page address and a PAT index up to 15, and address, PAT index, present and write permission all decode from it |
| PteFormat.PteBits | Drivers/PortedXe/XePageTable.cpp:58-72 | a leaf entry is its address, present, the write bit and its PAT bits 3, 4, 7 and 62, and no other bit is set |
| PteFormat.PdeRoundTrip | Drivers/PortedXe/XePageTable.cpp:74-80 | a directory entry exists exactly for a 46-bit page address and a PAT index up to 3; address and PAT index decode from it, it is present and writable, and no higher bit is set |
| PteFormat.PdeBits | Drivers/PortedXe/XePageTable.cpp:74-80 | a directory entry is its address, present, writable and its two PAT bits 3 and 4, and no other bit is set |
| PteFormat.GgttRoundTrip | Drivers/PortedXe/XePageTable.cpp:48-56 | a global entry exists exactly for a 46-bit page address and a PAT index up to 3, and address, PAT index and present decode from it |
| PteFormat.GgttBits | Drivers/PortedXe/XePageTable.cpp:48-56 | a global entry is its address, the present bit and its two PAT bits 52 and 53, and no other bit is set |
| PageTableSpec.TablesGrow | Mellow/XePageTable.cpp:73-90 | mapping a page adds exactly the tables of its own path to those needed |
| PageTableSpec.GrowSize | Mellow/XePageTable.cpp:73-90 | mapping a page costs exactly the tables missing on its path |
| PageTableSpec.ParentNeeded | Mellow/XePageTable.cpp:128-134 | a needed table needs its parent, so pruning can stop at the first table that stays |
| PageTableSpec.FailureChangesNothing | Mellow/XePageTable.cpp:63-136 | a call that fails changes neither the map nor the page accounting |
| PageTableSpec.StrangersChangeNothing | Mellow/XePageTable.cpp:63-143 | in every run calls by anyone but the owner change nothing, and nobody else looks anything up |
| PageTableSpec.StepKeepsWf | Mellow/XePageTable.cpp:63-143 | no call needs more tables than the pool has, every stored entry has its present bit, and no mapped page is one of the table's own pages |
| PageTableSpec.RunKeepsWf | Mellow/XePageTable.cpp:63-143 | the same after every sequence of calls |
| PageTableSpec.RunElsewhere | Mellow/XePageTable.cpp:63-136 | in every run a lookup is decided only by the calls that named its own address |
| PageTableSpec.LastMapWins | Mellow/XePageTable.cpp:63-114 | in every run a lookup returns the entry of the last accepted map of its address |
| PageTableSpec.LastUnmapWins | Mellow/XePageTable.cpp:97-136 | in every run an address whose last accepted call was an unmap is not found |
| PageTableSpec.UnmapUndoesMap | Mellow/XePageTable.cpp:63-136 | unmapping a new mapping restores the whole state, table accounting included |
| PageTableSpec.SealedForever | Mellow/XePageTable.cpp:137-143 | after a seal no sequence of calls changes anything |
| PageTableTree.AttachKeepsShape | Mellow/XePageTable.cpp:73-90 | linking an empty table under a path keeps the tree a tree with the same mapped pages |
| PageTableTree.DetachKeepsShape | Mellow/XePageTable.cpp:55-62 | unlinking a table that nothing needs keeps the tree and the mapped pages |
| PageTableTree.LeafEditKeepsShape | Mellow/XePageTable.cpp:91-95 | one leaf word changes exactly one page of the map |
| PageTableTree.TableCount | Mellow/XePageTable.cpp:144-148 | used slots and tables are in bijection |
| PageTable.PageTable.FindDma | Mellow/XePageTable.cpp:9-12 | finds the slot of a table page by its address, or says there is none |
| PageTable.PageTable.Allocate | Mellow/XePageTable.cpp:13-22 | takes and clears the lowest unused slot, or changes nothing because every slot is used |
| PageTable.PageTable.CheckPool | Mellow/XePageTable.cpp:28-37 | accepts exactly the pools of distinct, encodable pages |
| PageTable.PageTable.Initialize | Mellow/XePageTable.cpp:23-42 | exact outcome for every input; on success the empty map over the pool, otherwise no change |
| PageTable.PageTable.ChildOf | Mellow/XePageTable.cpp:43-54 | following an entry finds exactly the child table of that index; the consistency checks never fire |
| PageTable.PageTable.Rollback | Mellow/XePageTable.cpp:55-62 | undoing the edges of a failed walk leaves exactly the tables the mapped pages need |
| PageTable.PageTable.Descend | Mellow/XePageTable.cpp:72-90 | reaches the leaf table, or runs out exactly when the missing tables exceed the unused slots, and then undoes everything |
| PageTable.PageTable.StoreLeaf | Mellow/XePageTable.cpp:91-95 | stores the entry in a free page, or reports busy and removes every table it added |
| PageTable.PageTable.Insert | Mellow/XePageTable.cpp:72-95 | after the argument checks: busy exactly for a mapped page, out of space exactly when the missing tables exceed the unused slots, and then nothing changed |
| PageTable.PageTable.Map4K | Mellow/XePageTable.cpp:63-96 | the in-place walk refines the map: same status and same resulting state for every input, and no page of the table itself is ever mapped |
| PageTable.PageTable.Lookup | Mellow/XePageTable.cpp:97-114 | the tree walk returns what the map holds, never a page of the table itself, or the exact error |
| PageTable.PageTable.Prune | Mellow/XePageTable.cpp:128-134 | frees every table of the path that became empty and no other |
| PageTable.PageTable.Unmap4K | Mellow/XePageTable.cpp:115-136 | refines removal from the map, status and state |
| PageTable.PageTable.Seal | Mellow/XePageTable.cpp:137-143 | refines sealing and returns the root table's address |
| PageTable.PageTable.UsedPages | Mellow/XePageTable.cpp:144-148 | the count is the number of tables the mapped pages need |
| PageTable.PageTable.Execute | Mellow/XePageTable.cpp:63-148 | any sequence of calls on the tree has the statuses and the final state of the same run on the map, and exposes no page of the table |
| GgttSearch.Skip | Mellow/XeGgtt.cpp:83-88 | moves past the aligned end of a clashing mapping, and stays exactly when nothing clashes |
| GgttSearch.NothingSkipped | Mellow/XeGgtt.cpp:84-89 | no aligned free address lies in what a failed try jumps over |
| GgttSearch.AheadShrinks | Mellow/XeGgtt.cpp:81-90 | every failed try leaves fewer mappings ahead |
| GgttSearch.FindInRange | Mellow/XeGgtt.cpp:78-91 | the lowest aligned free address of a granted range, or a proof that there is none; the attempt limit never loses one |
| GgttSearch.Find | Mellow/XeGgtt.cpp:78-92 | the first range with a placement and the lowest placement in it |
| GgttModel.SlotReserve | Mellow/XeGgtt.cpp:57-65 | a fresh reservation keeps mappings disjoint, generations different and every entry owned |
| GgttModel.EntryChange | Mellow/XeGgtt.cpp:134-143 | writing or clearing an entry of an active mapping keeps every entry owned by the mapping that wrote it |
| GgttBackend.Backend.RetainBacking | Mellow/XeGuCRegionOwner.cpp:299-304 | a hold is granted only to the owner in the open epoch, after two answers of yes, on a matching canonical region that has none, and changes only that region's flag; it is granted whenever the answers and the CPU view agree |
| GgttBackend.Backend.OwnsBacking | Mellow/XeGuCRegionOwner.cpp:305-309 | says yes only to the owner in the open epoch, after two answers of yes, for a held matching canonical region; and says it whenever the answers and the CPU view agree |
| GgttBackend.Backend.ReleaseBacking | Mellow/XeGuCRegionOwner.cpp:310-315 | ends a hold only for the owner in the open epoch, after the hardware said it is quiet, and on an unreferenced region; a release while the mapping can still translate is recorded |
| GgttBackend.Backend.WritePte | Mellow/XeGuCRegionOwner.cpp:326-330 | may fail after taking effect; overwriting another writer's entry is recorded |
| GgttBackend.Backend.Invalidate | Mellow/XeGuCRegionOwner.cpp:331-335 | after success only what is in the table can be translated |
| Ggtt.Manager.Initialize | Mellow/XeGgtt.cpp:23-38 | invalid exactly for epoch zero or ranges that are missing, too many, malformed or overlapping; opens once |
| Ggtt.Manager.Fits | Mellow/XeGgtt.cpp:48-56 | exactly the ranges inside one grant that meet no live mapping |
| Ggtt.Manager.Insert | Mellow/XeGgtt.cpp:57-65 | takes the first free slot under a fresh serial; fails exactly when the serial is spent or no slot is free |
| Ggtt.Manager.ReserveAt | Mellow/XeGgtt.cpp:66-72 | wrong epoch and invalid are exact; reserves the given range in the first free slot, or changes nothing, and out of space names its reason |
| Ggtt.Manager.Reserve | Mellow/XeGgtt.cpp:73-93 | reserves the first placement in range order and address order; out of space means there was none |
| Ggtt.Manager.Verify | Mellow/XeGgtt.cpp:100-107 | success means every page reads back as wanted, or as zero while clearing |
| Ggtt.Manager.Publish | Mellow/XeGgtt.cpp:108-147 | on success, which takes the owner, the open epoch, PAT 3 and nine answers of yes plus nine for each page, every page holds its entry and the backing is held; a reservation and backing in order over a range without entries are published whenever every answer agrees; every failure either undoes all of it or quarantines the mapping |
| Ggtt.Manager.PublishHeld | Mellow/XeGgtt.cpp:117-146 | a held mapping over an empty range is published whenever every answer is yes; otherwise it is taken down with its hold or quarantined with it |
| Ggtt.Manager.PublishedNow | Mellow/XeGgtt.cpp:148-158 | confirms only an exact backing freshly read back, with every answer yes, and confirms it whenever they are; any doubt quarantines |
| Ggtt.Manager.Retain | Mellow/XeGgtt.cpp:159-164 | adds one user to a mapping just confirmed, every answer yes, and nothing else |
| Ggtt.Manager.Release | Mellow/XeGgtt.cpp:165-171 | takes one user away, and nothing else, exactly when the manager is live and the hardware says that the consumers are retired; the exact status otherwise |
| Ggtt.Manager.Teardown | Mellow/XeGgtt.cpp:172-193 | frees the slot and gives the backing back only when no entry of the mapping can translate any more, and only after every question, retirement included, was answered yes |
| Ggtt.Manager.Clean | Mellow/XeGgtt.cpp:175-190 | a mapping counts as cleared only after ownership, retirement, readback, zeroing, invalidation and a second readback all succeeded, each answer yes |
| Ggtt.Manager.Retire | Mellow/XeGgtt.cpp:194-203 | busy exactly while the mapping has users; otherwise it is freed with its hold after as many answers of yes as its state demands, or quarantined with it |
| Ggtt.Manager.Close | Mellow/XeGgtt.cpp:208-213 | the space goes back only when no mapping is left and both answers were yes |
| Ggtt.Manager.Execute | Mellow/XeGgtt.cpp:66-213 | in every run no foreign entry is overwritten, no backing is released while it can be reached, and every entry of the manager, in the table or cached, belongs to a mapping that holds its backing |
| Ggtt.EntriesAreHeld | Mellow/XeGgtt.cpp:108-193 | every entry the manager wrote that can translate lies in an active mapping whose backing is held |
| Ggtt.NothingLeft | Mellow/XeGgtt.cpp:178-189 | zeroed pages and an invalidation leave no entry of the mapping anywhere |
| Ggtt.HoldTwice | Mellow/XeGuCRegionOwner.cpp:299-315 | a hold followed by its release leaves the region table as it was |
| RegionOwner.FindOwn | Mellow/XeGuCRegionOwner.cpp:85-89 | a callback from the mapping manager finds the region the call is about and no other |
| RegionOwner.UnmappedHasNoEntries | Mellow/XeGuCRegionOwner.cpp:140-157 | a region without a mapping has no entry that can translate |
| RegionOwner.ChargeUpdate | Mellow/XeGuCRegionOwner.cpp:156-176 | the charge is the sum of the regions' bytes under every change |
| RegionOwner.Owner.Initialize | Mellow/XeGuCRegionOwner.cpp:40-67 | invalid exactly for owner or epoch zero or ranges that are not 1 to 32 disjoint page ranges between 4 MiB and the GuC top; opens once over exactly those ranges, and a failure leaves it closed |
| RegionOwner.Owner.Cleanup | Mellow/XeGuCRegionOwner.cpp:135-159 | mapping, then pin, then record; busy exactly while referenced; success needs the hardware quiet and the pin taken back with nothing kept; any doubt quarantines and keeps the charge |
| RegionOwner.Owner.Unpin | Mellow/XeGuCRegionOwner.cpp:146-155 | the pin is gone exactly when the backend answers success and leaves nothing; no mapping of it is held or translates then |
| RegionOwner.Owner.Map | Mellow/XeGuCRegionOwner.cpp:200-212 | pairs the region with a fresh reservation of its size and records exactly the address reserved, or changes nothing |
| RegionOwner.MappedTranslates | Mellow/XeGuCRegionOwner.cpp:208-213 | a region whose mapping is published is reached at its recorded address: each of its pages leads to its own DMA page, present, under PAT 3 |
| RegionOwner.Owner.PublishMapping | Mellow/XeGuCRegionOwner.cpp:213-222 | on success the region holds a published mapping; a failure that was undone leaves the region without one |
| RegionOwner.Owner.Establish | Mellow/XeGuCRegionOwner.cpp:184-227 | a published region, or nothing at all, or a quarantined record |
| RegionOwner.Owner.Fresh | Mellow/XeGuCRegionOwner.cpp:129-134 | a region is fresh only after every answer was yes, and then each of its addresses leads to its own DMA page; any doubt quarantines it |
| RegionOwner.Owner.Allocate | Mellow/XeGuCRegionOwner.cpp:160-228 | bad requests are refused with their exact status; success publishes one usable region in the first free record, found by its handle, and charges its bytes within the total; without a handle nothing changed; with one and no success the region is quarantined |
| RegionOwner.Owner.Latest | Mellow/XeGuCRegionOwner.cpp:270-276 | the live record with the highest generation, or none |
| RegionOwner.Owner.Retire | Mellow/XeGuCRegionOwner.cpp:258-261 | a handle that is not found gives its exact error (closed, owner, epoch, stale); busy exactly while borrowed; success frees exactly the named region and its charge; anything else quarantines it |
| RegionOwner.Owner.Write | Mellow/XeGuCRegionOwner.cpp:229-244 | exact status for bad handles, ranges, states and borrowed regions; success is exactly the copy into the region, and no page list and no other usable region changes; any doubt quarantines |
| RegionOwner.Owner.Describe | Mellow/XeGuCRegionOwner.cpp:245-252 | describes exactly a usable region just proved mapped: at the address and for the bytes described every page of the global table leads to the region's own DMA page under PAT 3; any doubt quarantines it |
| RegionMemory.SeparatedGrows | Mellow/XeGuCRegionOwner.cpp:104-125 | a candidate that passes the alias test shares no pin, CPU byte or page-list byte with any usable region, and can become one |
| RegionMemory.SeparatedKept | Mellow/XeGuCRegionOwner.cpp:104-125 | usable regions stay apart while a record stays in place or stops being usable |
| RegionMemory.CopyBytes | Mellow/XeGuCRegionOwner.cpp:238-241 | the byte loop over ranges that do not meet is one copy and changes nothing else |
| RegionMemory.CopyStaysInside | Mellow/XeGuCRegionOwner.cpp:236-241 | a copy inside one usable region misses every page list and every other usable region |
| RegionOwner.Owner.Close | Mellow/XeGuCRegionOwner.cpp:265-281 | closes only with every region gone and nothing charged |
| RegionOwner.Owner.RetainRegion | Mellow/XeGuCRegionOwner.cpp:350-360 | borrows an unborrowed region that was just confirmed published |
| RegionOwner.Owner.ReleaseRegion | Mellow/XeGuCRegionOwner.cpp:361-366 | ends exactly that borrow |
| RegionOwner.Owner.SynchronizeRegion | Mellow/XeGuCRegionOwner.cpp:367-374 | succeeds only on a borrowed region that translates page by page to its own DMA pages, and only on a yes; a failure changes nothing or quarantines exactly that region |
| RegionOwner.Owner.PublishedRegion | Mellow/XeGuCRegionOwner.cpp:379-382 | says yes only in the epoch, for a borrowed region that translates page by page to its own DMA pages; otherwise nothing changes or exactly that region is quarantined |
| RegionOwner.Owner.Perform | Mellow/XeGuCRegionOwner.cpp:40-382 | no call changes a page list in use or a byte of a borrowed region, quarantined or not, and started, draining and closed never go back |
| RegionOwner.Owner.Execute | Mellow/XeGuCRegionOwner.cpp:40-382 | in every run of all its calls and loader callbacks the charge is the sum of the regions, address, size, users and holds agree between owner and manager, a published region translates page by page to its own DMA pages, usable regions share no byte, and no pin or backing went back while it could be reached |
| CtRing.ParseEncode | Mellow/XeGuCTransport.cpp:157-159 | an encoded message decodes to itself |
| CtRing.ParseConcat | Mellow/XeGuCTransport.cpp:135-162 | decoding consecutive words is decoding the parts in turn |
| CtRing.WriteFree | Mellow/XeGuCTransport.cpp:140-160 | writing only free words changes nothing the reader will see |
| CtRing.RoomIsFree | Mellow/XeGuCTransport.cpp:135-138 | the room for a message is free and the tail never reaches the head |
| CtRing.AppendSent | Mellow/XeGuCTransport.cpp:156-163 | a message at the tail is what the reader gets after everything before it, wrapped or not |
| CtRing.PadRoom | Mellow/XeGuCTransport.cpp:140-148 | a message that does not fit before the end can always be preceded by padding |
| CtRing.Pad | Mellow/XeGuCTransport.cpp:140-148 | padding to the end adds no message |
| CtRing.Take | Mellow/XeGuCTransport.cpp:139-162 | taking the first message leaves the others in order |
| CtRing.OutboxKept | Mellow/XeGuCTransport.cpp:135-160 | writes into free words, at most as many as there is room for, leave what the firmware will read as it was |
| CtRing.OutboxPadded | Mellow/XeGuCTransport.cpp:140-148 | padding out the end and wrapping leaves the queue of unread messages as it was |
| CtRing.OutboxGrows | Mellow/XeGuCTransport.cpp:156-162 | moving the tail past a written message adds exactly that message to the queue |
| CtInbox.PostAppends | Mellow/XeGuCTransport.cpp:216-226 | a message the firmware posts in free words comes after all that are there, across the end of the ring or not |
| CtInbox.FirstIn | Mellow/XeGuCTransport.cpp:219-226 | the header and words at the head are those of the first message posted and not yet read |
| CtInbox.Consume | Mellow/XeGuCTransport.cpp:231-232 | moving the head past the first message leaves exactly the others |
| CtActions.OwnContextTested | Mellow/XeGuCTransport.cpp:128-134 | the test before sending asks about the action's own context in every well-formed table if and only if the action is not a registration of a context other than 1 |
| CtActions.RegistrationClash | Mellow/XeGuCTransport.cpp:128-134 | a registration is held back exactly when context 1 awaits an event |
| CtActions.OwnContextMissed | Mellow/XeGuCTransport.cpp:128-134 | a registration of context 7 that is not held back although context 7 awaits its deregistration |
| CtActions.OtherContextCounted | Mellow/XeGuCTransport.cpp:128-134 | a registration of context 7 that is held back although only context 1 awaits an event |
| CtActions.LastCreditStays | Mellow/XeGuCTransport.cpp:134 | a request that needs as many credits as there are has to wait, and one that does not leaves a credit |
| CtActions.WireHeader | Mellow/XeGuCTransport.cpp:152-159 | the header of a sent message decodes to its action, to a request or a fast request, and to the host as its origin; the cookie says which of the two it is |
| CtActions.TookStores | Mellow/XeGuCTransport.cpp:192-209 | the one request that a message answers stores exactly that message; it is settled by any but a busy, and a timeout is not undone |
| CtActions.AllTold | Mellow/XeGuCTransport.cpp:192-209 | the state of every request is the type of the message it stores: response or event for success, 6 for failure, 5 for retry, 3 for busy, nothing before an answer |
| CtActions.ReplyFits | Mellow/XeGuCTransport.cpp:125-134 | the words a request reserves are enough for any message that answers it |
| CtLedger.Issue | Mellow/XeGuCTransport.cpp:149-156 | a new request keeps credits conserved, cookies different and one event per context |
| CtLedger.Develop | Mellow/XeGuCTransport.cpp:195-209 | a reply returns credits exactly once and never above the limit |
| CtLedger.TimeOut | Mellow/XeGuCTransport.cpp:166-171 | a timeout keeps the credits out |
| CtLedger.Forget | Mellow/XeGuCTransport.cpp:241-246 | forgetting a request without credits keeps the ledger |
| CtLedger.EvolvesTransitive | Mellow/XeGuCTransport.cpp:166-246 | what any run may make of a request composes |
| GuCTransport.Transport.Attach | Mellow/XeGuCTransport.cpp:84-95 | attaches once to disjoint, well-formed, fresh rings after two answers of yes, or changes nothing and names the refusal |
| GuCTransport.Transport.CheckDescriptors | Mellow/XeGuCTransport.cpp:96-106 | goes on only if every field was fit at a moment it was read, the firmware moving between the reads, and both answers were yes; corrupt means that a field was not; any doubt breaks the transport for good |
| GuCTransport.Transport.ReadDescriptors | Mellow/XeGuCTransport.cpp:101-104 | sound exactly when each of the six fields, as the firmware showed it when it was read, is without error, as the host left it or inside its ring; otherwise one was not |
| GuCTransport.Transport.FindSlot | Mellow/XeGuCTransport.cpp:126-134 | the last free entry, or the reason there is none to use |
| GuCTransport.Transport.PadTail | Mellow/XeGuCTransport.cpp:140-148 | pads to the end without touching an unread word |
| GuCTransport.Transport.ReadHead | Mellow/XeGuCTransport.cpp:135-136 | the space is computed from a head the firmware shows at that moment; an honest firmware has only moved it on |
| GuCTransport.RoomStays | Mellow/XeGuCTransport.cpp:135-148 | a head that moves on never takes room away |
| GuCTransport.Transport.MakeRoom | Mellow/XeGuCTransport.cpp:135-148 | busy exactly when, by a head the firmware showed during the call, the message fits neither at the tail nor after padding; no word unread by that head is written |
| GuCTransport.Transport.PutMessage | Mellow/XeGuCTransport.cpp:156-163 | the message enters the queue exactly when the tail moves, and no unread word changes |
| GuCTransport.Transport.Send | Mellow/XeGuCTransport.cpp:117-165 | a request is entered with its reservation and the next cookie, or not at all; exhausted and busy have their exact reasons, by a head the firmware showed during the call, and with an honest firmware by the head before the call; no word unread by the head read is written; success takes six answers of yes, nine if it has to pad, and breaking off takes a no; an unknown outcome keeps the entry |
| GuCTransport.Transport.Expire | Mellow/XeGuCTransport.cpp:166-171 | times out exactly the overdue requests that still own credits |
| GuCTransport.Transport.Settle | Mellow/XeGuCTransport.cpp:195-209 | one request takes the reply and its state is the type of the message stored; a late reply stays a timeout; the over-return check never fires |
| GuCTransport.Transport.Dispatch | Mellow/XeGuCTransport.cpp:172-210 | accepts a message exactly when it is an unasked event or a well-formed answer to one live request, which alone takes it; anything else breaks the transport and changes nothing |
| GuCTransport.Transport.Receive | Mellow/XeGuCTransport.cpp:211-235 | after timing out what is overdue delivers the next message once, exactly to the request it answers, which stores exactly that message; success takes five answers of yes; from an honest firmware it is the next message posted, and empty means that all it had posted was consumed |
| GuCTransport.Transport.Query | Mellow/XeGuCTransport.cpp:236-240 | finds the request of a cookie of this epoch, whose state is the type of the message stored, or says which is wrong |
| GuCTransport.Transport.Retire | Mellow/XeGuCTransport.cpp:241-246 | forgets only a request that owns no credits |
| GuCTransport.Transport.Execute | Mellow/XeGuCTransport.cpp:84-246 | over every run of host and firmware, which acts between any two shared accesses: credits plus reservations are constant and one credit is never given out, cookies never repeat, timeouts and final replies are final, every request's state is what its stored message says, and an honest firmware and the host each read exactly what the other wrote and they have not read yet, in order |
| VirtualMemory.NoneSkipped | Mellow/XeMemory.cpp:92-100 | no free address lies in what the search jumps over |
| VirtualMemory.OverflowMeansNone | Mellow/XeMemory.cpp:13-17 | when aligning overflows 64 bits there is no aligned address in the window |
| VirtualMemory.Search | Mellow/XeMemory.cpp:88-101 | the lowest aligned free address, or a proof that there is none |
| VirtualMemory.VirtualMemory.Initialize | Mellow/XeMemory.cpp:37-49 | exact outcome for every input |
| VirtualMemory.VirtualMemory.Insert | Mellow/XeMemory.cpp:60-77 | takes the first free slot under a fresh generation, with the exact reason otherwise |
| VirtualMemory.VirtualMemory.Exclude | Mellow/XeMemory.cpp:78-80 | blocks the range or changes nothing, with the exact reason |
| VirtualMemory.VirtualMemory.ReserveAt | Mellow/XeMemory.cpp:81-84 | exact status; reserves exactly the given free range in the first free slot, or changes nothing |
| VirtualMemory.VirtualMemory.Reserve | Mellow/XeMemory.cpp:85-102 | reserves the lowest placement; out of space with a slot and a generation left means there was none |
| VirtualMemory.VirtualMemory.Pin | Mellow/XeMemory.cpp:123-152 | exact status by the backend's answers; the pages kept are the ones it gave, and only if they fit; a failed unpin quarantines with the pin recorded |
| VirtualMemory.VirtualMemory.Bind | Mellow/XeMemory.cpp:153-168 | exact status by the backend's answer: bound, unchanged, or quarantined |
| VirtualMemory.VirtualMemory.RetainUse | Mellow/XeMemory.cpp:169-177 | one more use of a bound allocation, exact status |
| VirtualMemory.VirtualMemory.ReleaseUse | Mellow/XeMemory.cpp:178-186 | one use fewer, exact status |
| VirtualMemory.VirtualMemory.RecordUse | Mellow/XeMemory.cpp:187-197 | the last use only moves forward on its own timeline, exact status |
| VirtualMemory.VirtualMemory.Retire | Mellow/XeMemory.cpp:198-206 | exact status; a bound allocation starts retiring |
| VirtualMemory.VirtualMemory.Unmap | Mellow/XeMemory.cpp:212-226 | exact status by the backend's answers; the mapping goes only with no use left, after the backend said that the last fence is complete and then that it is unbound |
| VirtualMemory.VirtualMemory.Reclaim | Mellow/XeMemory.cpp:207-235 | exact status by the backend's answers: frees the slot, quarantines it, or changes nothing; a retiring allocation is freed only after its last fence, its unbinding and its unpinning were confirmed, in this order |
| VirtualMemory.NeverAgain | Mellow/XeMemory.cpp:103-111 | a handle that does not resolve never will |
| VirtualMemory.VirtualMemory.Execute | Mellow/XeMemory.cpp:60-235 | in every run live ranges are disjoint, stale handles never resolve, quarantine is final, pinned and bound allocations are what the backend confirmed, and every allocation that was ever bound is live or was unused when the backend had said, in this order, that its fence is complete, its range unbound and its pages unpinned |
| MemoryBridge.StepKeepsHolds | Mellow/XeMemorySubmission.hpp:42-50 | no other operation of the memory manager moves a use count or a held allocation |
| MemoryBridge.Bridge.Offer | Mellow/XeMemorySubmission.hpp:21-28 | a resource is offered exactly for a bound allocation, and then it resolves to it |
| MemoryBridge.Bridge.Retain | Mellow/XeMemorySubmission.hpp:57-62 | held exactly when the resource resolves and its count has room |
| MemoryBridge.Bridge.Drop | Mellow/XeMemorySubmission.hpp:63-71 | for any resource: one use fewer if it matches one, otherwise nothing changes but a fault that stays |
| MemoryBridge.Bridge.Release | Mellow/XeMemorySubmission.hpp:63-71 | giving back what is held always works: the bridge never faults |
| MemoryBridge.Bridge.Client | Mellow/XeMemorySubmission.hpp:42-71 | whatever other clients do, every held resource keeps its identity, place and pin and stays usable |
| SubmissionModel.HoldsAreJobs | Mellow/XeSubmission.cpp:86-91 | a resource is held once for each held job that lists it |
| SubmissionModel.CoveredPassed | Mellow/XeSubmission.cpp:129-140 | a job covered by an accepted observation was passed by a valid, ordered reading of this owner, context and engine that the backend gave |
| SubmissionModel.GenuineGrows | Mellow/XeSubmission.cpp:129-135 | accepting a reading keeps every observation one that the backend gave, each from a later call than the one before |
| SubmissionModel.DevelopsTransitive | Mellow/XeSubmission.cpp:113-172 | what any run may make of a job composes |
| SubmissionModel.SamePinsStep | Mellow/XeSubmission.cpp:86-172 | one more step keeps the pins of every job still held as they were when the run began |
| SubmissionModel.NoFault | Mellow/XeSubmission.cpp:78-88 | no fault found means exactly distinct, owned, well-formed resources |
| Submission.Queue.ValidateBatch | Mellow/XeSubmission.cpp:4-12 | accepts exactly no-ops ended by a single batch end |
| Submission.Queue.Activate | Mellow/XeSubmission.cpp:23-35 | exact error; ready only once, with owner, context and firmware in order and all eight readiness bits for exactly this queue |
| Submission.Queue.CheckResources | Mellow/XeSubmission.cpp:78-88 | the error is that of the first faulty resource: ownership, then mapping, then repetition; none exactly for distinct, owned, well-formed resources |
| Submission.Queue.TakeAll | Mellow/XeSubmission.cpp:89-95 | holds all of them or none; all exactly when each can be held |
| Submission.Queue.Submit | Mellow/XeSubmission.cpp:54-112 | the error is decided by arguments and state, in order, and then by the transport's answer to exactly this batch under the next token; a token is issued exactly when the transport may have taken the batch, and only then are holds kept |
| Submission.Queue.Expire | Mellow/XeSubmission.cpp:113-122 | times out exactly the overdue jobs and releases nothing |
| Submission.Queue.Settle | Mellow/XeSubmission.cpp:136-142 | the observed fence completes submitted jobs and only releases late ones |
| Submission.Queue.OnInterrupt | Mellow/XeSubmission.cpp:123-144 | the error is decided by the state and by the one reading taken: invalid exactly when that is not a valid, ordered reading of this generation, owner, context and engine between the last observation and the last submission; every job is exactly what ageing and that reading make of it, exactly the holds it has passed end, and an error changes no observation |
| Submission.Queue.Reset | Mellow/XeSubmission.cpp:145-160 | exact error by the state and the answer to the quiesce; after success nothing is held, exactly the submitted and unknown jobs are reset and a new generation begins; otherwise no job changes |
| Submission.Queue.Query | Mellow/XeSubmission.cpp:161-166 | the state of the token's job; completed means that an accepted fence covered it before its deadline and that the backend showed such a fence |
| Submission.Queue.Retire | Mellow/XeSubmission.cpp:167-172 | forgets exactly a job that holds nothing and is not submitted, exact status |
| Submission.Queue.Execute | Mellow/XeSubmission.cpp:23-172 | in every run, with other clients of the memory manager in between: each use count is the number of held jobs listing it, held resources stay bound in place with their pins, tokens never repeat, and a completed job was passed by a valid reading of its own queue that the backend gave, accepted in time, while timed-out and unknown jobs never complete |
| InterruptRace.FilterRunKeeps | Mellow/XeInterrupt.cpp:60-69 | however far the filter runs, delivery stays enabled only while armed or about to be masked |
| InterruptRace.RearmSafe | Mellow/XeInterrupt.cpp:51-69 | re-arming with the filter running between any two of its steps ends safe |
| InterruptRace.SecondLookNeeded | Mellow/XeInterrupt.cpp:51-69 | without the second look at the state an enable can outlive a mask |
| InterruptRace.Overtaken | Mellow/XeInterrupt.cpp:51-69 | a run after which the controller is armed but masked |
| InterruptRace.AtRest | Mellow/XeInterrupt.cpp:51-69 | at rest enabled implies armed, and armed implies enabled exactly when no enable was overtaken |
| InterruptTrace.SourcesExact | Mellow/XeInterrupt.cpp:82-83 | the sources of a bank are exactly its set bits, ascending |
| InterruptTrace.ReportedExact | Mellow/XeInterrupt.cpp:78-103 | at most 64 sources, each pending one once and no other |
| InterruptTrace.OrderlyJoin | Mellow/XeInterrupt.cpp:70-104 | a trace is in order part by part, so every collection can be judged on its own |
| InterruptTrace.BankServed | Mellow/XeInterrupt.cpp:78-102 | a summary read, one acknowledgement of each source it reports and its clearing serve the bank in full |
| InterruptTrace.CollectedExact | Mellow/XeInterrupt.cpp:70-104 | the batch of a collection is exactly the sources that the master and summary words it read report |
| Interrupt.Controller.Fail | Mellow/XeInterrupt.cpp:17-21 | a fault leaves delivery masked or the mask write missed |
| Interrupt.Controller.Rearm | Mellow/XeInterrupt.cpp:51-59 | ends safe whatever the filter did and whichever write failed |
| Interrupt.Controller.Configure | Mellow/XeInterrupt.cpp:22-45 | succeeds only with delivery masked, not armed and nothing outstanding |
| Interrupt.Controller.Start | Mellow/XeInterrupt.cpp:46-50 | invalid unless configured and stopped; arms only then |
| Interrupt.Controller.AwaitIdentity | Mellow/XeInterrupt.cpp:85-94 | returns only an identity with its valid bit; a timeout means that no read showed one and that ten thousand were made or a hundred microseconds passed or the clock went back |
| Interrupt.Controller.Capture | Mellow/XeInterrupt.cpp:82-98 | acknowledges at most one identity, and only a valid one that was read; a captured identity was acknowledged |
| Interrupt.Controller.CaptureBank | Mellow/XeInterrupt.cpp:78-102 | reads the summary, captures one acknowledged identity for each set bit, in order, and clears the summary last and only if all of them were; a failure leaves a trace that a noted break accounts for |
| Interrupt.Controller.Collect | Mellow/XeInterrupt.cpp:70-104 | on success its trace is the tile word, and if that reports this tile the master word, its clearing, and for each bank it names the summary, its acknowledgements and its clearing, each answer read once and in order; the batch is what those words report; otherwise the break is noted |
| Interrupt.Controller.Drain | Mellow/XeInterrupt.cpp:112-118 | hands identities out in capture order; one whose handler asks for more stays next |
| Interrupt.Controller.OfferNext | Mellow/XeInterrupt.cpp:114-117 | an identity counts as handled exactly when its own handler answers that it is drained |
| Interrupt.Controller.DrainOther | Mellow/XeInterrupt.cpp:119-125 | the other sources are over only when the handler of exactly those bits answers that they are drained |
| Interrupt.Controller.Service | Mellow/XeInterrupt.cpp:105-128 | re-arms only when everything captured has been handled; succeeds only if no admission and no access was refused |
| Interrupt.Controller.Stop | Mellow/XeInterrupt.cpp:129-137 | stopped with delivery masked, or still configured with the batch kept |
| Interrupt.Controller.Execute | Mellow/XeInterrupt.cpp:22-137 | after any calls and any interleaving: at rest enabled implies armed, armed implies enabled exactly when no enable was overtaken, what was handled is a prefix of what was captured with at most 64 outstanding, each handled identity's own handler said it is drained, in order, every summary ever read was acknowledged in full and then cleared or its collection broke off, and between a stop and the next configuration delivery stays masked |
| ContextRing.AppendedQueue | Mellow/XeContext.cpp:55-72 | the engine reads what it would have read, then the skip, the commands and the pad |
| ContextRing.UnreadKept | Mellow/XeContext.cpp:66-69 | no unread word is written |
| ContextRing.FreeSpace | Mellow/XeContext.cpp:63-65 | the space compared with is all but the queue and the eight-byte gap |
| ContextRing.AppendRing | Mellow/XeContext.cpp:55-72 | exact error for every input; nothing changes on error; otherwise the queue grows by exactly the commands and the eight-aligned tail does not meet the head |
| ZebinBytes.LittleValue | Mellow/XeZebin.cpp:6-9 | reading back what was written gives the value cut to its width |
| ZebinBytes.ValueLittle | Mellow/XeZebin.cpp:6-9 | writing a value read from bytes gives those bytes |
| ZebinBytes.PutBytes | Mellow/XeZebin.cpp:9 | the byte loop writes exactly the little-endian value |
| ZebinBytes.PutAllAt | Mellow/XeZebin.cpp:292-293 | under disjoint patches every byte is its patch's or the buffer's |
| ZebinBytes.AnyOrder | Mellow/XeZebin.cpp:293 | disjoint patches give the same bytes in any order |
| ZebinStage.AddendExact | Mellow/XeZebin.cpp:275-279 | the signed addend is added exactly, and refused exactly when the sum leaves 64 bits |
| ZebinStage.SymbolRelocation | Mellow/XeZebin.cpp:268-286 | an ordinary symbol's fix is address plus offset plus addend, the selected part of it, added to data already there |
| ZebinStage.FindClash | Mellow/XeZebin.cpp:287 | finds exactly whether a fix meets one planned before |
| ZebinStage.PlanSection | Mellow/XeZebin.cpp:250-289 | plans all entries of a section behind what is planned, or the whole is not plannable |
| ZebinStage.Plan | Mellow/XeZebin.cpp:245-290 | succeeds exactly when every relocation resolves, none overlap and they are at most 64 |
| ZebinStage.PlanExact | Mellow/XeZebin.cpp:245-290 | the plan holds exactly what the relocations ask for |
| ZebinStage.CheckBindings | Mellow/XeZebin.cpp:237-244 | accepts exactly aligned, fitting destinations that pass the overlap test against each other and the file |
| ZebinMemory.OverlapExact | Mellow/XeZebin.cpp:14 | for addressable ranges the 64-bit overlap test says yes exactly when they meet and neither ends at the top of the address space |
| ZebinMemory.TopOverlap | Mellow/XeZebin.cpp:14 | the last page of memory does not overlap itself |
| ZebinStage.BoundDisjoint | Mellow/XeZebin.cpp:237-244 | accepted destinations share no byte with each other or the file if and only if those that end at the top of the address space do not |
| ZebinStage.BoundTwice | Mellow/XeZebin.cpp:237-244 | two segments bound to the same last page are accepted |
| ZebinStage.Commit | Mellow/XeZebin.cpp:291-293 | in one host memory only the destinations change, and if they share no byte with each other or the file each becomes its segment under its patches |
| ZebinStage.Stage | Mellow/XeZebin.cpp:234-297 | succeeds exactly for a valid image that is bound and plannable, otherwise no byte of memory changes; on success only destinations change, and whenever they share no byte with each other or the file each is its segment under exactly its patches |
| ZebinStage.FixReads | Mellow/XeZebin.cpp:293 | each fix can be read back from the staged segment |
| ZebinStage.SymbolStaged | Mellow/XeZebin.cpp:268-293 | where an ordinary symbol is relocated the staged bytes are its segment's address plus its offset plus the addend, the part the kind selects, on top of data already there |
| ZebinStage.AbsoluteStaged | Mellow/XeZebin.cpp:267-293 | an absolute symbol stages its own value plus the addend, whatever the addresses are |
| ZebinStage.PerThreadStaged | Mellow/XeZebin.cpp:264-266 | a per-thread offset stages the cross-thread size less the inline size, in code only and without an addend |
| ZebinStage.CrossThreadStaged | Mellow/XeZebin.cpp:258-263 | the implicit-argument prefix is a code word that was zero and stays zero |
| ZebinStage.RestKept | Mellow/XeZebin.cpp:292 | every byte no fix covers is the segment's own or zero |
| ZebinStage.OrderFree | Mellow/XeZebin.cpp:245-293 | two plannable images asking for the same fixes stage the same bytes |
| ZebinStage.EntryOrder | Mellow/XeZebin.cpp:250-289 | the entries of a section in another order resolve to the same fixes, or both fail |
| ZebinStage.InAnyOrder | Mellow/XeZebin.cpp:245-293 | the order of relocation sections, and of the entries in each, decides neither success nor contents |
| ZebinPayload.CheckLayout | Mellow/XeZebin.cpp:140-156 | accepts exactly eight different, well-formed arguments that do not overlap and fit |
| ZebinPayload.AllSlots | Mellow/XeZebin.cpp:140-154 | eight different arguments are all eight of the profile |
| ZebinPayload.CrossLeast | Mellow/XeZebin.cpp:152-155 | the payload size is the least multiple of 32 that holds every argument |
| ZebinPayload.CheckGroup | Mellow/XeZebin.cpp:303-306 | the running quotient test accepts exactly work-group products up to 1024 |
| ZebinPayload.CheckValues | Mellow/XeZebin.cpp:299-306 | accepts exactly usable buffers and sizes |
| ZebinPayload.BuildPayload | Mellow/XeZebin.cpp:298-317 | refuses an invalid image or unusable values, and nothing else; otherwise the bytes are those of the layout and values, the size is the least multiple of 32 that holds every argument, inline and indirect parts make it up, and nothing is written beyond it |
| ZebinPayload.ReadBack | Mellow/XeZebin.cpp:309-315 | reading any argument at its offset gives the value supplied for it |
| ZebinPayload.GapsAreZero | Mellow/XeZebin.cpp:307-315 | bytes of no argument are zero |
| RoutePlanner.Search.Transfer | Runtime/PlatformRuntime.cpp:72-93 | a transfer is found exactly when one is possible, in place before shared before copied |
| RoutePlanner.Search.Choose | Runtime/PlatformRuntime.cpp:94-112 | the most preferred admissible completion, or none exists, or the limit; the limit is reached exactly when the budget is smaller than the attempts of the search without one |
| RoutePlanner.PreferredOnce | Runtime/PlatformRuntime.cpp:94-112 | the most preferred assignment is unique |
| RoutePlanner.CheckInput | Runtime/PlatformRuntime.cpp:134-149 | accepts exactly bounded, valid, distinct providers, known features and forward dependencies |
| RoutePlanner.PlanWorkload | Runtime/PlatformRuntime.cpp:128-170 | invalid and unsupported are exact; the limit is reported exactly when the budget is below the cost of the unlimited search; otherwise a ready plan is the first admissible assignment with its transfer modes, or no assignment exists, after exactly that many attempts |
| RoutePlanner.MoreBudget | Runtime/PlatformRuntime.cpp:94-112 | a larger budget keeps a ready plan, its transfers and its attempts |
| RoutePlanner.CostBound | Runtime/PlatformRuntime.cpp:94-112 | the unlimited search takes at most the attempts of an exhaustive one |
| ShaderGrammar.ReadsBinary | Runtime/RenderShaderJit.cpp:182 | a parenthesised operation reads as that operation on the two operands, in any context |
| ShaderGrammar.ReadsNegation | Runtime/RenderShaderJit.cpp:115-117 | a parenthesised negation reads as the negation |
| ShaderGrammar.ReadsField | Runtime/RenderShaderJit.cpp:162 | a parenthesised operand with a swizzle reads as the member access |
| ShaderGrammar.ReadsIndex | Runtime/RenderShaderJit.cpp:149 | the emitted subscript reads as a subscript by the converted index |
| ShaderGrammar.ReadsCall | Runtime/RenderShaderJit.cpp:138-141 | the emitted constructor reads as a call of the same arguments |
| ShaderMeaning.ImageTyped | Runtime/RenderShaderJit.cpp:74-185 | by the rules of GLSL itself, every admitted expression becomes one of the type recorded for it: uint, float or the vector of that width |
| ShaderMeaning.ConstructorTyped | Runtime/RenderShaderJit.cpp:131-142 | arguments whose lanes were counted fill the GLSL constructor of that width |
| ShaderMeaning.ImageMeans | Runtime/RenderShaderJit.cpp:102-185 | what is emitted for an admitted expression has, for all values of its names, the value that the Metal expression has, or both are undefined |
| ShaderMeaning.SameWidth | Runtime/RenderShaderJit.cpp:74-82 | the Metal name of a float type and the GLSL name it becomes stand for the same width |
| ShaderMeaning.SwizzleLetters | Runtime/RenderShaderJit.cpp:153-161 | the letters admitted are the ones both languages have, of one family and within the vector |
| ShaderJit.VariableRead | Runtime/RenderShaderJit.cpp:144-148 | only a name, possibly in parentheses, reads as a variable |
| ShaderJit.Parser.CheckSwizzle | Runtime/RenderShaderJit.cpp:153-161 | accepts exactly one to four letters of one family within the vector |
| ShaderJit.Parser.Reference | Runtime/RenderShaderJit.cpp:143-149 | an array takes exactly the vertex index as its subscript; what is refused has no accepted reading |
| ShaderJit.Parser.Constructor | Runtime/RenderShaderJit.cpp:131-142 | a constructor is typed and emitted as its reading says, or refused because its reading has no type; `ShaderMeaning.ImageTyped` and `ShaderMeaning.ImageMeans` say what that emission is |
| ShaderJit.Parser.Primary | Runtime/RenderShaderJit.cpp:110-165 | one operand: the reader's tree, its type, code that reads as its image, or a justified refusal |
| ShaderJit.Parser.Expression | Runtime/RenderShaderJit.cpp:166-185 | precedence climbing reads what the grammar reads at every level, with the same grouping |
| ShaderJit.Parser.Statement | Runtime/RenderShaderJit.cpp:166-185 | accepts exactly the expressions that read, have a type and keep subscripts between names, unless a limit struck, which needs 24 tokens or 4096 nodes; what the emitted code reads as is a GLSL expression of the recorded type and has the value of the Metal expression, for all types and values of its names |
| ShaderJit.ParenthesizedArray | Runtime/RenderShaderJit.cpp:112-149 | a subscript on a parenthesised array reads and has a type, and is refused |
| ShaderJit.NameSymbol | Runtime/RenderShaderJit.cpp:197-200 | a parameter block or local name stands wherever its source name stood |
| ShaderJit.VertexIdSymbol | Runtime/RenderShaderJit.cpp:201-204 | the emitted vertex index stands as an operand |
| ShaderJit.VertexIdMeans | Runtime/RenderShaderJit.cpp:201-204 | the emitted vertex index is a uint with the value of the vertex number |
| ShaderJit.FragmentPositionSymbol | Runtime/RenderShaderJit.cpp:205-208 | the emitted fragment position stands as an operand |
| ShaderJit.FragmentPositionMeans | Runtime/RenderShaderJit.cpp:205-208 | the emitted fragment position is a four-vector whose second component counts rows from the other edge of the viewport |

## Left out

- The kernel, IOKit, display, audio and media code, and everything that only forwards to the operating system.
- Reading ELF sections, the metadata text and compatibility notes of a kernel image: staging and payload start from a parsed image.
- Splitting characters into tokens, the parsing and rounding of literals, and the statements, declarations and wrapping of an entry function around its expressions: the translator starts from tokens with literal values, and rounding to single precision is a parameter.
- Emitting code as text: what is compared is the token sequence, not spacing.
- Rounding in what shader expressions mean: values are reals, and a quotient by zero has no value.
- Message boxes and the staged configuration of the firmware rings; loading of firmware images.
- Region owner calls that only report or pass a question on (inspect, the number of allocations, the admission, reset and PAT questions of the loader).
- Which of two failing checks names the error, where only one of several errors is promised (planning relocations).
- The order of MMIO writes inside one interrupt collection other than acknowledging and clearing; the individual enable and mask registers of the engines.
- The words of a batch are checked and given to the transport, and not kept in the job record.
- Completion tracking and cache identities of the provider runtime, which are comparisons of records.
- The context image and its register layout.
- ContextRing.AppendRing: the overlap of ring and commands is array identity, where the source compares address ranges; partly overlapping buffers are not modelled.
- Memory ordering below the granularity of single atomic accesses.
- Null arguments: buffers and callbacks exist, except where the source lets a backend leave one out.
- Ggtt.Manager.Publish: a failure means that an answer was no or that something stood in the way; which of the failure statuses it has is stated only by the state it leaves.
- RegionOwner.Owner.Allocate: once pinning has begun the status of a failure is not tied to the answer that caused it.
- Interrupt.Controller.Collect: a fault during collection counts as a broken batch even if nothing was captured yet.
