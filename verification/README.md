# Models and proofs for the TLB tracer, its simulators and parts of the bundled emulator

This project models, in Dafny, the parts of the repository whose correctness is hardest to see from
the code, and proves what they are for, over every input, every run or every reachable state.

* **Live RAM migration** (`qemu/arch_init.c`). `RamSender`, `RamReceiver` and `Migration` describe the
  stream as bytes and prove that whatever the guest writes before stage 3, and wherever the rate limit cuts
  a call, the destination ends up equal to the source. `RamAccounts` and `RamTransfer` say what its counts
  and octets are. `MigrationCode` holds the two ends as classes with the loops of the source, proved equal
  to those functions.
* **TLB simulators** (`tlb_sim.c`). `Recency` is an abstract LRU order over a history of references, with
  stack distance and inclusion. `TimestampCache`, `LruRefinement` and `CacheHistory` show that a one-set
  timestamp table is that cache; `Simulators`, `SimulatorTheorems` and `SimulatorStreams` prove what the
  four simulations look up and report over whole traces; `StampHorizon` and `TraceHorizon` find how long
  32-bit stamps stay exact; `TableSearch` and `SimulatorCode` hold the loops, the tables, the clock and the
  drivers.
* **Tracer** (`tlb_trace.c`). `Tracer` compares the last-instruction shortcut with the plain scan and reads
  the trace file back; `TracerTheorems` says which references are recorded, across all flushes, and
  `TracerCode` is the tracer as a class.
* **Block layer** (`qemu/block.c`, `qemu/cutils.c`). `IoVectors`, `WriteMerging`, `Multiwrite`,
  `MultiwriteErrors`, `ByteIo` and `Commit`: scatter-gather lists, merging of write requests, the completion
  counter of a multiwrite and the error it reports, byte requests on sectors, and the commit of an overlay
  into its backing image.
* **Byte streams**. `BufferedFile` and `BufferedAnswers` (`qemu/buffered_file.c`), `CircularBuffer`
  (`qemu/cbuffer.c`), `CharTalk`, `BipChains` and `CharPipe` (`qemu/charpipe.c`): conservation, FIFO order
  and flow control over partial, stalling backends, with the linked 512-byte nodes as objects on the heap.
* **DES** (`qemu/d3des.c`). `DesTables`, `Des`, `DesCode` and `DesEngine`: the bit permutations, the rounds,
  the key schedule, and the same on 64-bit words. `DesBoxes`, `DesStandard` and `DesKeys` hold the tables of
  FIPS 46-3 and prove that the code computes that cipher, the octets of a key being read low bit first.

`Octets`, `Numbers`, `Wrappers` and `Constants` hold octet strings, options and shared constants. Most
components come twice: functions on values, about which the theorems are proved, and a class whose methods
work step by step like the source and whose contracts tie the new state to those functions.

## What turned out not to hold

Where the code does not meet a property one would expect, the code is modelled as it is, and a lemma gives
the exact condition.

* A victim scan always has slot 0 as a candidate, so with several sets a page can replace one of another
  set: `TimestampCache.CrossSetEviction`, exactly when in `TimestampCache.VictimInOwnSet`.
* Stamps are 32 bits wide: a table of two or more slots is LRU for every history of n lookups if and only if
  n is at most 2^32 (`StampHorizon.LruHorizon`), and so is the NTLB simulation over traces
  (`TraceHorizon.NtlbHorizon`). A lookup of the tag of empty slots hits while any are left
  (`StampHorizon.EmptyTagHits`).
* The tracer's shortcut can hit an entry that the scan of the set does not reach: `Tracer.ShortcutAstray`,
  exactly when in `Tracer.ShortcutIsScan`.
* Merging writes drops the tail of an earlier request that reaches past the later one:
  `WriteMerging.TailLost`, exactly when in `WriteMerging.MergeExact`.
* `bdrv_commit` into a read-only backing image returns the code of reopening it, so a failed copy can be
  reported as a success: `Commit.ReportTrusted` says exactly when a return code of 0 can be relied on.
* After a failed flush, `buffered_put_buffer` can send new data ahead of buffered data and report success:
  `BufferedFile.Overtaken`, exactly when in `BufferedFile.OrderForEveryBackend`.
* `charpipehalf_poll` tests for `chr_can_read` on its own side but asks the peer. Deliveries stay within the
  peer's answers if and only if this half has one or the peer has none (`CharTalk.FlowControl`, with
  `CharTalk.Overrun` and, on objects, `CharPipe.OverrunPeer`); with one on its own side only nothing is ever
  delivered (`CharTalk.Stalled`, `CharTalk.TurnMoves`, `CharPipe.StallHalf`).
* `charpipehalf_init` forgets the chain of a half: every node keeps a place if and only if no bytes wait in it
  (contract of `CharPipe.Pipes.Init`), and writing to a closed half leaves some (`CharPipe.LoseNodes`).
* `ram_save_block` dereferences `last_block` when it is NULL and its first probe fails; stage 1 marks every
  page dirty, which is why `RamSender.Valid` is an invariant.

## Model

| member | source | states |
|---|---|---|
| RamSender.Scan | qemu/arch_init.c:126-170 | the round-robin scan returns the first dirty page in visiting order from its start, and finds none only if no page it has still to visit is dirty |
| RamSender.SaveBlockOutcome | qemu/arch_init.c:114-176 | a call cleans exactly one dirty page, the first in wrap-around order from the cursor, and lowers the dirty count by one, or returns 0, changes nothing and no page of any block is dirty |
| RamSender.RemainingClean | qemu/arch_init.c:180-196 | clearing one set flag lowers ram_save_remaining by exactly one |
| RamSender.MarkDirty | qemu/arch_init.c:276-285 | after the start of stage 1 every page is dirty and the layout is unchanged |
| RamSender.Drain | qemu/arch_init.c:325-330 | the flush of stage 3 ends and leaves no dirty page |
| RamSender.StageThree | qemu/arch_init.c:322-332 | stage 3 leaves no dirty page whatever the rate limit did before |
| RamSender.Migrate | qemu/arch_init.c:252-337 | a whole migration ends with every page clean and the block layout kept |
| RamReceiver.FindBlock | qemu/arch_init.c:360-363 | the search by name returns the first block with that name, and none only if there is none |
| Migration.PageRecordLoads | qemu/arch_init.c:127-158 | the receiver stores exactly the page a record describes, dup or full, named or CONTINUE, and makes its block the current one |
| Migration.SizeTableLoads | qemu/arch_init.c:390-419 | the block table is accepted if and only if every listed block exists with the listed length; otherwise -EINVAL |
| Migration.HeaderLoads | qemu/arch_init.c:290-296 | the opening of a stream is accepted if and only if the block lists match |
| Migration.EosLoads | qemu/arch_init.c:454-456 | the EOS word ends a load and changes nothing |
| Migration.StoreSync | qemu/arch_init.c:302-310 | a guest store between pages keeps the invariant that clean pages agree |
| Migration.CleanSync | qemu/arch_init.c:127-158 | sending and cleaning a page keeps it, and the receiver's current block stays the sender's last_block |
| Migration.SaveBlockSync | qemu/arch_init.c:114-176 | loading what one ram_save_block wrote keeps clean pages equal and CONTINUE meaning the same block on both sides |
| Migration.StagesTwoSync | qemu/arch_init.c:302-337 | after any number of stage-2 calls every page that is not dirty is equal on both sides |
| Migration.MigrationCorrect | qemu/arch_init.c:252-457 | for every initial contents, guest activity and rate limiting, the whole stream loads and destination RAM equals source RAM |
| MigrationCode.IsDupPage | qemu/arch_init.c:96-109 | the word-wise comparison holds exactly for pages all of whose bytes are ch |
| MigrationCode.AddressIdentifies | qemu/arch_init.c:168-170 | addresses compared by the loop identify pages, because blocks do not overlap |
| MigrationCode.Advance | qemu/arch_init.c:160-168 | one step of offset and block is the next page in round-robin order |
| MigrationCode.NextDirty | qemu/arch_init.c:116-173 | the do-while loop ends and finds what the scan finds, or is back where it began |
| MigrationCode.Source.RamSaveBlock | qemu/arch_init.c:114-176 | new cursor, flags, bytes written and count returned are those of SaveBlock |
| MigrationCode.Source.SendPage | qemu/arch_init.c:127-158 | writes the record of the page and clears its flag |
| RamAccounts.RemainingIsDirty | qemu/arch_init.c:180-196 | ram_save_remaining is the size of the set of dirty pages |
| RamAccounts.RemainingNone | qemu/arch_init.c:180-196 | it is 0 if and only if every page of every block is clean |
| RamAccounts.AllRemain | qemu/arch_init.c:180-218 | when every page has been marked dirty, the bytes remaining are the bytes in all |
| RamAccounts.BytesWritten | qemu/arch_init.c:127-158 | the count a call returns is the size of the page data it wrote, 1 exactly for a page of one octet value |
| RamAccounts.NamedPage | qemu/arch_init.c:127-156 | the octets of a record of a whole page with its block's name |
| RamAccounts.FilledPage | qemu/arch_init.c:127-156 | the octets of a record of a page of one octet value in the block of the page before |
| RamAccounts.OpeningAndEnd | qemu/arch_init.c:290-332 | the octets that open a stream of one page and those that end a section |
| RamTransfer.OneTransfers | qemu/arch_init.c:266-315 | the bytes that stage 1 adds to bytes_transferred are the page data read from its section after the block table, record by record |
| RamTransfer.TwoTransfers | qemu/arch_init.c:302-315 | the same for stage 2 and its whole section |
| RamTransfer.ThreeTransfers | qemu/arch_init.c:302-332 | and for stage 3, the flush included |
| Octets.PutBeAt | qemu/savevm.c:621-640 | octet i of n, the most significant first, is v / 256^(n - 1 - i) modulo 256 |
| Migration.UnknownBlock | qemu/arch_init.c:421-450 | a record for a block the destination lacks fails, with -EINVAL in the COMPRESS branch and through a NULL host in the PAGE branch |
| MigrationCode.Source.RamSaveRemaining | qemu/arch_init.c:180-196 | returns the number of dirty pages of all blocks, 0 if and only if all are clean |
| MigrationCode.Source.RateLimited | qemu/arch_init.c:302-310 | the rate-limited loop sends what SaveTicks sends, guest activity in between |
| MigrationCode.Source.Flush | qemu/arch_init.c:325-330 | the unlimited loop of stage 3 ends and sends what Drain sends |
| MigrationCode.Source.Begin | qemu/arch_init.c:269-297 | resets the cursor, marks every page and writes the block table |
| MigrationCode.Source.Sizes | qemu/arch_init.c:292-296 | writes name and length of every block in order |
| MigrationCode.Source.RamSaveLive | qemu/arch_init.c:252-337 | a call with stage 1, 2 or 3 has the state, stream and byte count of StageOne, StageTwo or StageThree; a negative stage only ends dirty tracking; a failed synchronization only sets the file's error |
| MigrationCode.Destination.Search | qemu/arch_init.c:360-363 | the loop over the block list finds what FindBlock finds |
| MigrationCode.Destination.HostFromStreamOffset | qemu/arch_init.c:339-367 | finds the block of a record whose name is complete and keeps it in the static variable, NULL when the name is unknown |
| MigrationCode.Destination.CheckSizes | qemu/arch_init.c:390-419 | reads the block table as LoadSizes does, 64-bit subtraction included; a table cut short fails |
| MigrationCode.Destination.ReadPage | qemu/arch_init.c:421-450 | stores the page of a record, with -EINVAL for a NULL host only in the COMPRESS branch; a record cut short fails |
| MigrationCode.Destination.RamLoad | qemu/arch_init.c:369-457 | reads one section as Load does, with -EINVAL for unknown or resized blocks; a section cut short fails |
| Recency.HitByStackDistance | tlb_sim.c:86-113 | an LRU cache of n places hits if and only if the key was used before and fewer than n other keys were used since |
| Recency.TakeTouch | tlb_sim.c:86-113 | an LRU list of n places is the first n elements of the unbounded one |
| Recency.MissesMonotone | tlb_sim.c:115-148 | enlarging an LRU cache never adds a miss over any history |
| Recency.HitOfSpace | tlb_sim.c:176-265 | a hit with references of other address spaces interleaved is a hit without them |
| Recency.MissesOfSpaceAlone | tlb_sim.c:176-265 | leaving out other address spaces never adds a miss |
| TimestampCache.Scan | tlb_sim.c:88-104 | the loop returns the first matching slot of the set, or a slot with the least stamp among the set and the initial candidate |
| TimestampCache.Reference | tlb_sim.c:86-113 | a lookup writes one slot, with the key and the truncated clock, and no other |
| TimestampCache.LookupOutcome | tlb_sim.c:86-113 | a hit if and only if the key is in its own set; otherwise the overwritten slot has the least stamp among that set and slot 0 |
| TimestampCache.VictimInOwnSet | tlb_sim.c:88-104 | replacement stays in the key's own set if and only if slot 0 is in it or some slot of it is older than slot 0 |
| TimestampCache.CrossSetEviction | tlb_sim.c:88-109 | a concrete run of three lookups from an empty two-set table in which a page of set 1 replaces the page of set 0 |
| TimestampCache.SetByNumber | tlb_sim.c:93 | with a power of two of sets, the scan begins at the granule number modulo that |
| TimestampCache.SlotsOfAddress | tlb_sim.c:93 | and the slots of an address are those whose number agrees with it modulo that |
| TimestampCache.KeepsUnique | tlb_sim.c:86-113 | each key stays in at most one slot of its own set, for any number of sets |
| TimestampCache.KeepsStamped | tlb_sim.c:95-109 | nonzero stamps stay distinct and at most systs |
| LruRefinement.OneSetOutcome | tlb_sim.c:228-252 | with one set a miss overwrites a slot with the least stamp of all |
| LruRefinement.LookupRefines | tlb_sim.c:228-252 | with ways equal to size, one lookup is one step of an LRU list of that capacity and hits exactly when the list has the key |
| LruRefinement.HoldsContents | tlb_sim.c:228-252 | the keys in the table are exactly those of the list |
| CacheHistory.FreshTracks | tlb_sim.c:45-57 | a flushed table is the LRU cache of the empty history |
| CacheHistory.ReferTracks | tlb_sim.c:86-113 | after any history a lookup hits exactly when an LRU cache would, and hit and miss counters stay exact |
| SimulatorTheorems.RunIsLru | tlb_sim.c:128-400 | in each of the four simulations, with one set, after any trace each cache holds the most recently used keys and has counted exactly the LRU misses |
| SimulatorTheorems.RunSane | tlb_sim.c:86-376 | in every state any simulation reaches, with any number of sets, keys are unique in their sets and nonzero stamps distinct and not ahead of the clock |
| SimulatorTheorems.NtlbStream | tlb_sim.c:115-126 | the lookups of the NTLB simulation are the page references of the trace, in order |
| SimulatorTheorems.NoEptStream | tlb_sim.c:254-265 | the lookups of PWC_NOEPT are the descriptor references of the trace, in order |
| SimulatorTheorems.EptStream | tlb_sim.c:176-204 | the asid-1 lookups of PWC_EPT are the same descriptor references, in order |
| SimulatorTheorems.Accounting | tlb_sim.c:86-126 | exact costs for every trace and geometry: NTLB accesses are non-final lookups plus twice the misses; accesses are PWC misses in the other three; in the full simulation NTLB lookups are asid-1 PWC misses plus records of level 3, and PWC lookups are descriptor references plus twice the NTLB misses |
| SimulatorTheorems.NtlbReport | tlb_sim.c:128-148 | table, misses and accesses of the NTLB simulation in terms of the trace alone |
| SimulatorTheorems.NoEptReport | tlb_sim.c:267-287 | table, misses and accesses of PWC_NOEPT in terms of the trace alone |
| SimulatorStreams.EptLayout | tlb_sim.c:180-182 | the extended page table gives each megabyte one word from 0 and each page one word from 0x4000, in order; the page of an address is the multiple of 0x1000 below it |
| SimulatorStreams.EptInjective | tlb_sim.c:180-182 | two addresses share a second-level descriptor if and only if they are in one page, a first-level one if and only if in one megabyte, and the levels never meet |
| SimulatorStreams.EptLookups | tlb_sim.c:176-204 | with one set, all lookups of PWC_EPT are, in order, those of a history defined by the trace and LRU hits alone: each descriptor, after its miss the two words that map its address, and for level 3 the two words of gpa |
| SimulatorStreams.FullLookups | tlb_sim.c:342-376 | the same for both caches of NTLB_PWC: after each asid-1 miss its page in the NTLB, for level 3 gpa, and after each NTLB miss the two words |
| SimulatorStreams.EptHistoryGuest | tlb_sim.c:176-204 | the asid-1 part of that history is the descriptor references of the trace |
| SimulatorStreams.FullHistoryGuest | tlb_sim.c:342-376 | and so it is for NTLB_PWC |
| SimulatorStreams.EptReport | tlb_sim.c:206-226 | after any trace the PWC is that of an LRU cache after the lookups of the history, and accesses and misses are its LRU misses |
| SimulatorStreams.FullReport | tlb_sim.c:378-400 | the same for both tables and all counters of NTLB_PWC |
| SimulatorTheorems.NtlbInclusion | tlb_sim.c:115-148 | a larger one-set NTLB holds all a smaller one does after any trace, with no more misses and no more accesses |
| SimulatorTheorems.NoEptInclusion | tlb_sim.c:254-287 | the same for the PWC without an extended page table |
| SimulatorStreams.NoEptNeverCostsMore | tlb_sim.c:176-376 | for the same trace and one-set PWC, PWC_NOEPT never reports more accesses than PWC_EPT, nor than NTLB_PWC |
| StampHorizon.ExactWithin | tlb_sim.c:28-35 | up to 2^32 lookups a one-set table holds exactly the most recently used keys |
| StampHorizon.OverrunNotExact | tlb_sim.c:28-35 | beyond 2^32 lookups a concrete history of pages leaves out the page used last but one |
| StampHorizon.LruHorizon | tlb_sim.c:28-35 | LRU for every history of n lookups if and only if n is at most 2^32 |
| TraceHorizon.RunIsAfter | tlb_sim.c:115-148 | the NTLB of the simulation is a fresh table after the page references of the trace, one tick of systs each |
| TraceHorizon.SectionsRefer | tlb_sim.c:115-117 | level-1 records can make any sequence of page references |
| TraceHorizon.NtlbHorizon | tlb_sim.c:115-148 | with one set of two or more slots, the NTLB simulation holds the pages most recently referenced after every trace of n lookups if and only if n is at most 2^32 |
| StampHorizon.EmptyTagHits | tlb_sim.c:45-52 | a first lookup of the tag of empty slots hits if and only if some slot is empty |
| TableSearch.Search | tlb_sim.c:93-104 | the loop finds what Scan finds |
| TableSearch.Clear | tlb_sim.c:45-52 | every slot becomes empty |
| SimulatorCode.CacheUnit.Lookup | tlb_sim.c:315-340 | table, counters and result of a lookup are those of Refer, and the clock advances by one |
| SimulatorCode.Simulator.FlushAll | tlb_sim.c:74-84 | everything is as at the start |
| SimulatorCode.Simulator.ChargedNtlb | tlb_sim.c:86-113 | the lookup with its charges of one and two accesses |
| SimulatorCode.Simulator.RunNtlb | tlb_sim.c:115-126 | one record of the NTLB simulation |
| SimulatorCode.Simulator.RunPwcEpt | tlb_sim.c:176-204 | one record of the PWC simulation with EPT references, whose lookups over a trace SimulatorStreams.EptLookups gives |
| SimulatorCode.Simulator.RunPwcNoEpt | tlb_sim.c:254-265 | one record of the PWC simulation without them |
| SimulatorCode.Simulator.RunFull | tlb_sim.c:342-376 | one record of the full simulation, whose lookups over a trace SimulatorStreams.FullLookups gives |
| SimulatorCode.Simulator.Simulate | tlb_sim.c:128-148 | the drivers' loop over the records computes Run, about which the theorems are |
| Tracer.ShortcutIsScan | tlb_trace.c:75-95 | the shortcut gives the table and result of the scan if and only if its slot is one that the scan of the key's set reaches |
| Tracer.FastIsScan | tlb_trace.c:69-139 | with one set, over any run with any flushes, the shortcut changes neither table, counters, records nor file |
| Tracer.ShortcutAstray | tlb_trace.c:75-95 | a two-set run in which the shortcut hits and the scan does not |
| Tracer.FlushKeepsUnique | tlb_trace.c:150-168 | every flush keeps keys unique within their sets |
| Tracer.RunFile | tlb_trace.c:113-129 | over any run, whatever last_ins_idx was left at, words written plus buffer are one 4-word record per miss, hits plus misses are lookups, and only the miss that ends the program goes unrecorded |
| Tracer.ParseFlatten | tlb_sim.c:140-142 | reading the words in fours gives one record per miss, in order |
| Tracer.FlattenAt | tlb_trace.c:120-124 | which four words of the file hold record i, and in which order |
| Tracer.ParseAt | tlb_sim.c:140-142 | record i is read from words 4i to 4i + 3 |
| Tracer.LimitEnds | tlb_trace.c:104-107 | the program ends at the miss that finds 150000000000 lookups made, and at no other event |
| Tracer.TraceFile | tlb_trace.c:299-311 | after tlbtrace_stop the file has one record per recorded miss, from which level and page are recovered |
| Tracer.RecordedTells | tlb_trace.c:113-125 | level and page are recovered from the word that holds both |
| TracerTheorems.FlushSlots | tlb_trace.c:150-191 | slot by slot: a flush of all empties every slot, one of a space exactly the slots of that space, one of an entry exactly those of the page va & 0xFFFFF000 in space va & 0xFF |
| TracerTheorems.FlushHolds | tlb_trace.c:150-191 | a one-set table holding a list holds, after a flush, the list without the pages the flush is for, in the same order |
| TracerTheorems.ListedIsResident | tlb_trace.c:69-191 | a page is in the LRU list with flushes if and only if it has been used, no flush since was for it, and at no time since had n other unflushed pages been used after it |
| TracerTheorems.TracerIsLru | tlb_trace.c:69-191 | with one set, shortcut or not, across all flushes: the pages in the table are the resident ones and the misses recorded are exactly the references to pages not resident, in order |
| TracerTheorems.FlushedMisses | tlb_trace.c:150-191 | the next reference to a page after a flush that is for it misses, whatever comes between |
| TracerTheorems.OthersKept | tlb_trace.c:150-191 | a flush that is not for a page leaves it resident or not as before, and at any later time it is resident wherever it would be without that flush |
| TracerTheorems.TraceContents | tlb_trace.c:69-311 | the file of a stopped trace has one record per reference to a page not resident, in order |
| TracerCode.Traced | tlb_trace.c:69-311 | on the object: what is read back from the file after any references and flushes is exactly those references |
| TracerCode.TlbTracer.Start | tlb_trace.c:274-297 | table, counters, buffer and file are new and last_ins_idx is not |
| TracerCode.TlbTracer.RefmemSl | tlb_trace.c:70-110 | shortcut, scan and refill leave the table, last_ins_idx and counters of LookupFast |
| TracerCode.TlbTracer.RefmemPwc | tlb_trace.c:113-129 | appends one record and writes the buffer out when full |
| TracerCode.TlbTracer.Refmem | tlb_trace.c:132-139 | one traced reference is one step of the run |
| TracerCode.TlbTracer.Flush | tlb_trace.c:141-191 | each of the three flushes empties exactly the slots whose page and space it is for and leaves every other as it was |
| TracerCode.TlbTracer.Finish | tlb_trace.c:299-311 | what is buffered goes to the file |
| IoVectors.CopyExact | qemu/cutils.c:178-209 | the segments appended cover exactly bytes [skip, min(skip + size, total)) of the source |
| IoVectors.ScatterAt | qemu/cutils.c:242-256 | each byte goes to its own address and no other memory changes |
| IoVectors.BufferRoundTrip | qemu/cutils.c:231-256 | over disjoint segments, from_buffer then to_buffer returns the bytes and leaves other memory alone |
| IoVectors.IoVector.Add | qemu/cutils.c:157-169 | appends one segment and keeps size the sum of lengths |
| IoVectors.IoVector.Copy | qemu/cutils.c:178-209 | appends the segments of CopySegs and keeps size the sum of lengths |
| IoVectors.IoVector.Concat | qemu/cutils.c:211-214 | the same from the beginning of the source |
| IoVectors.IoVector.ToBuffer | qemu/cutils.c:231-240 | the buffer is the bytes of the segments in order |
| IoVectors.IoVector.FromBuffer | qemu/cutils.c:242-256 | memory is as after storing the first min(count, size) bytes in order |
| WriteMerging.MergeTwoShape | qemu/block.c:2130-2154 | the merged vector is the first request up to the start of the second, then the second, and nb_sectors fits it |
| WriteMerging.MergeTwoBytes | qemu/block.c:2136-2151 | byte by byte, which request each merged byte comes from |
| WriteMerging.MergeSound | qemu/block.c:2097-2166 | when every dropped byte is written again later, the merged list leaves every disk as the sorted requests do |
| WriteMerging.MergeExact | qemu/block.c:2097-2166 | for requests with separate buffers, merging preserves the effect on every disk and data if and only if every dropped byte is written again later |
| WriteMerging.MergedApart | qemu/block.c:2105-2165 | in the outcome, neighbours neither touch nor overlap unless joining them would have exceeded IOV_MAX, and no joined vector reaches IOV_MAX |
| WriteMerging.EndsInOrder | qemu/block.c:2136-2151 | requests whose ends are in order lose nothing |
| WriteMerging.TailLost | qemu/block.c:2136-2151 | two concrete requests of which the merged one loses a sector |
| WriteMerging.Combine | qemu/block.c:2130-2154 | the merging branch builds MergeTwo with the iovec functions |
| WriteMerging.MergeSorted | qemu/block.c:2105-2165 | the in-place loop with outidx leaves the merged list at the front and returns its length |
| WriteMerging.MultiwriteMerge | qemu/block.c:2097-2166 | for requests in any order and whatever sorted order qsort gives them, the merged list of that order is at the front and its length is returned |
| Multiwrite.StepKeeps | qemu/block.c:2061-2074 | every step, completions before or after bdrv_aio_writev returns included, keeps the counter equal to requests in flight plus the dummy and the one being submitted |
| Multiwrite.MultiwriteProtocol | qemu/block.c:2182-2255 | over every run: freed memory is never touched; callbacks run once each, in order, only after submission has ended and all accepted requests have completed, with the first negative result; after a failed first submission none run and -1 is returned |
| MultiwriteErrors.ScriptError | qemu/block.c:2182-2255 | whatever the driver does: once every accepted request is complete, each callback has run once with the first negative result of the completions in the order handled, a refused request counting as -EIO at the moment of its refusal, and before that none has run; a refusal is never reported as success; a refused first request returns -1 and no callback runs |
| MultiwriteErrors.ScriptEffect | qemu/block.c:2224-2247 | the loop handles the completions before each return in order, keeps what is left in flight, and ends with -EIO for a refusal |
| MultiwriteErrors.Multiwritten | qemu/block.c:2182-2255 | on the control block: the code returned, and the callbacks run after the completions that follow the call |
| Multiwrite.RanIsFinal | qemu/block.c:2069-2073 | nothing happens after the callbacks have run |
| Multiwrite.MultiwriteCB.UserCb | qemu/block.c:2047-2059 | calls every user callback once with the error |
| Multiwrite.MultiwriteCB.MultiwriteCb | qemu/block.c:2061-2074 | counts down, keeps the first error, runs the callbacks at zero |
| Multiwrite.MultiwriteCB.Submit | qemu/block.c:2226-2229 | one turn of the submission loop makes exactly the events of the driver's turn |
| Multiwrite.MultiwriteCB.CompleteAll | qemu/block.c:2061-2074 | completions are handled one by one, in order |
| Multiwrite.MultiwriteCB.GiveUp | qemu/block.c:2237-2247 | a later submission that fails counts as -EIO (MultiwriteErrors.RefusedEffect) and the call still returns 0 |
| MultiwriteErrors.RefusedEffect | qemu/block.c:2237-2247 | the refusal of a later request adds the results -EIO and 0, in that order, and leaves the requests in flight alone |
| Multiwrite.MultiwriteCB.Fail | qemu/block.c:2249-2254 | every request's error is set to -EIO |
| Multiwrite.MultiwriteCB.AioMultiwrite | qemu/block.c:2182-2255 | the state is that of the run which the driver's script makes, completions inside bdrv_aio_writev included; -1 with every error set exactly when the first submission fails, and 0 at once for no requests |
| ByteIo.CheckByteRequest | qemu/block.c:874-894 | returns 0 if and only if a medium is inserted and the device can grow or the byte range lies in it |
| ByteIo.SectorServed | qemu/block.c:896-901 | a request for part of a sector passes the check if and only if the one for the sector does |
| ByteIo.StoredPart | qemu/block.c:1032-1037 | reading a sector, changing some bytes and writing it back stores those bytes and no others, even when the write fails half way |
| ByteIo.Device.Read | qemu/block.c:904-915 | fetches the sectors, or part of them on an error |
| ByteIo.Device.Write | qemu/block.c:951-971 | stores the sectors, or part of them on an error, raises wr_highest_sector when the checks pass, and fails on a read-only device |
| ByteIo.Device.ReadPart | qemu/block.c:987-990 | the partial head or tail of a read |
| ByteIo.Device.WritePart | qemu/block.c:1032-1037 | the partial head or tail of a write |
| ByteIo.Device.Pread | qemu/block.c:973-1016 | for every alignment, success fetches exactly [offset, offset+count); without driver faults it succeeds if and only if that byte range is served; on failure only bytes of the range are touched |
| ByteIo.Device.Pwrite | qemu/block.c:1018-1065 | for every alignment, success changes exactly [offset, offset+count); without driver faults it succeeds if and only if the device is writable and serves that byte range; on failure each byte of it is old or new and no other changes |
| ByteIo.ReadsBack | qemu/block.c:973-1065 | on the flat array, a read after a write returns the data whatever came before |
| ByteIo.Serve | qemu/block.c:973-1065 | any run of served byte requests behaves as on a flat array of bytes, replies included |
| Commit.RunKeepsView | qemu/block.c:797-808 | copying one run of allocated sectors, or failing to, changes no sector as the guest sees it |
| Commit.CopyKeepsView | qemu/block.c:796-809 | neither does the whole loop, and if it completes the backing image shows every sector of the view |
| Commit.CommitKeepsView | qemu/block.c:745-843 | whatever fails, the combined view is unchanged sector by sector |
| Commit.AfterCommit | qemu/block.c:745-843 | what becomes of the device: a refused commit changes nothing and says why, a backing image open for writing stays so, one open for reading is open for reading again unless it could not be reopened, and only one that could not be opened for writing is kept read-only |
| Commit.CommitDone | qemu/block.c:745-843 | a return of 0 for a backing image opened for writing means that it alone shows the old view, and an overlay that can be emptied is empty |
| Commit.CommitSucceeds | qemu/block.c:745-843 | with nothing in the way the commit is done, reported so, and the backing device is as before |
| Commit.FirstSpoilt | qemu/block.c:804-807 | a failing write can leave the backing image wrong |
| Commit.ReportTrusted | qemu/block.c:825-842 | a return of 0 implies the commit was done, for all faults, if and only if the backing image was open for writing or no sector is at risk |
| Commit.OverlayDevice.CopySectors | qemu/block.c:799-808 | one run is read and written as CopyRun says |
| Commit.OverlayDevice.CopyAll | qemu/block.c:793-815 | the loop and make_empty end with the code and images of CopyAndEmpty |
| Commit.OverlayDevice.BdrvCommit | qemu/block.c:745-843 | return code and device are those of Committed; the view is unchanged; 0 for a writable backing image means done |
| BufferedFile.FlushSpends | qemu/buffered_file.c:83-102 | a flush of a non-empty buffer uses up an answer of the backend or fails, so close ends |
| BufferedFile.FlushConserves | qemu/buffered_file.c:72-107 | a flush loses and reorders nothing, even when it fails, and stops only empty, frozen or failed |
| BufferedFile.SendConserves | qemu/buffered_file.c:127-150 | direct sending takes a prefix of the data, counts it in bytes_xfer, and stops only done, frozen, failed or over the limit |
| BufferedFile.PutConserves | qemu/buffered_file.c:109-167 | a put without error appends its data to what was sent plus what is buffered, and returns its size |
| BufferedAnswers.FlushAnswers | qemu/buffered_file.c:83-102 | a flush asks until the buffer is empty or an answer is not positive, takes what is answered and no more, freezes on -EAGAIN and fails on any other such answer, and only then |
| BufferedAnswers.SendAnswers | qemu/buffered_file.c:127-150 | direct sending does the same, and asks nothing once the limit is exceeded |
| BufferedAnswers.WithinLimit | qemu/buffered_file.c:127-150 | a backend that takes at most m bytes at once gets at most m beyond the limit between two ticks |
| BufferedAnswers.PutThaws | qemu/buffered_file.c:109-156 | a put tries a frozen backend again: afterwards the file is frozen only if the backend asked to wait during this put, and else, without error, nothing is buffered or the limit is exceeded |
| BufferedAnswers.TickOutcome | qemu/buffered_file.c:231-251 | a tick leaves a failed or frozen file alone; else the count is 0, nothing is lost, and the buffer is empty, frozen or failed |
| BufferedFile.Conservation | qemu/buffered_file.c:48-167 | over every run of puts, ticks and limit changes with has_error 0, bytes accepted followed by bytes buffered are all bytes put, in order |
| BufferedFile.CloseComplete | qemu/buffered_file.c:169-190 | a close without error leaves nothing unsent: the backend has all that was put |
| BufferedFile.OrderExactly | qemu/buffered_file.c:109-156 | for one backend: bytes keep their order through a put, whatever they are, if and only if it is not the case that its flush fails while the limit allows sending and the backend then takes some of the new data |
| BufferedFile.OrderForEveryBackend | qemu/buffered_file.c:109-156 | bytes keep their order through a put of n bytes, for all bytes and all answers of the backend, if and only if the file has failed, n is 0, nothing is buffered, or the limit is exceeded |
| BufferedFile.RunInOrder | qemu/buffered_file.c:48-190 | over every run in which no put overtakes, failed or not, the backend has a prefix of what was put |
| BufferedFile.Overtaken | qemu/buffered_file.c:125-150 | a concrete put that sends new data ahead of buffered data and returns success |
| BufferedFile.BufferedOutput.Append | qemu/buffered_file.c:48-70 | the data follows what was buffered, reallocation included |
| BufferedFile.BufferedOutput.FlushBuffer | qemu/buffered_file.c:72-107 | buffer, flags and backend are as after Flush |
| BufferedFile.BufferedOutput.PutBuffer | qemu/buffered_file.c:109-167 | state and result are those of Put, and put_ready is due exactly for an empty put at position 0 within the limit |
| BufferedFile.BufferedOutput.CloseFile | qemu/buffered_file.c:169-190 | the loop ends in the state of Close, and the backend's code is returned |
| BufferedFile.BufferedOutput.Tock | qemu/buffered_file.c:231-251 | the state is that of Tick, and put_ready is due exactly when the file is neither failed nor frozen |
| BufferedFile.BufferedOutput.RateLimit | qemu/buffered_file.c:192-206 | limited if and only if not failed and frozen or over the limit |
| BufferedFile.BufferedOutput.SetRateLimit | qemu/buffered_file.c:208-222 | the state is that of SetLimit for any rate, negative ones wrapping to limits near SIZE_MAX, and the limit is returned |
| BufferedFile.Transfer | qemu/buffered_file.c:48-281 | a file driven by any events and closed without error has delivered all that was put |
| CircularBuffer.CBuffer.WritePeek | qemu/cbuffer.c:51-67 | the first free places that lie together; none if and only if the buffer is full |
| CircularBuffer.CBuffer.WriteStep | qemu/cbuffer.c:69-77 | the bytes in the next free places join the contents |
| CircularBuffer.CBuffer.Write | qemu/cbuffer.c:80-114 | appends as many bytes as there is room for, across the wrap-around, and returns how many |
| CircularBuffer.CBuffer.ReadPeek | qemu/cbuffer.c:151-164 | the first bytes that lie together are a prefix of the contents; none if and only if it is empty |
| CircularBuffer.CBuffer.ReadStep | qemu/cbuffer.c:167-180 | drops a prefix of the contents |
| CircularBuffer.CBuffer.Read | qemu/cbuffer.c:116-149 | removes a prefix of the contents into the caller's buffer, across the wrap-around, and touches no other byte of it |
| BipChains.OnePlace | qemu/charpipe.c:43-68 | in a valid layout every node is in exactly one list, once |
| BipChains.PushValid | qemu/charpipe.c:146-149 | linking a node at the end of a chain keeps that |
| BipChains.PopValid | qemu/charpipe.c:173-176 | so does taking the first node of a list |
| BipChains.ReturnValid | qemu/charpipe.c:63-68 | so does giving a node back to the free list |
| CharTalk.BypassDelivers | qemu/charpipe.c:106-126 | what the peer is given directly is a prefix of the data, all of it if it has no chr_can_read |
| CharTalk.BypassAmount | qemu/charpipe.c:106-126 | direct delivery takes all that the peer has room for before it first answers 0, and falls short of the data only right after such an answer |
| CharTalk.PollConserves | qemu/charpipe.c:155-200 | over the turns of a poll, bytes delivered followed by bytes waiting are unchanged |
| CharTalk.OfferConserves | qemu/charpipe.c:345-383 | the same for an endpoint that takes part of what it is offered |
| CharTalk.BypassPaced | qemu/charpipe.c:111-118 | direct delivery never exceeds the answer of chr_can_read just before it |
| CharTalk.PollPaced | qemu/charpipe.c:181-192 | nor does a poll, if this half has chr_can_read or the peer has none |
| CharTalk.FlowControl | qemu/charpipe.c:95-200 | over every run of writes and polls and every answer of the peer, no delivery exceeds the answer just before it, if and only if this half has chr_can_read or the peer has none |
| CharTalk.Overrun | qemu/charpipe.c:181-198 | a byte refused by the peer and then given to it by a poll |
| CharTalk.TurnMoves | qemu/charpipe.c:181-198 | with bytes waiting and room at the peer, a turn delivers some if and only if this half has no chr_can_read or the peer has one |
| CharTalk.TurnAmount | qemu/charpipe.c:181-198 | how many bytes a turn delivers under each setting, and that only an answer of 0 stops a poll |
| CharTalk.Stalled | qemu/charpipe.c:181-185 | with chr_can_read on this side only, no poll ever delivers anything |
| CharPipe.Pipes.BipAlloc | qemu/charpipe.c:45-61 | an empty node in no list, from the free list or fresh and then counted among all nodes; all chains unchanged |
| CharPipe.Pipes.BipFree | qemu/charpipe.c:63-68 | the node becomes the first free one |
| CharPipe.Pipes.EmptyChain | qemu/charpipe.c:100-106 | between calls a half has no node exactly when no bytes wait, so bip_last == NULL means what the writer takes it to mean |
| CharPipe.Pipes.WriteDirect | qemu/charpipe.c:106-126 | the loop asks, clamps and gives exactly as Bypass does |
| CharPipe.Pipes.Buffer | qemu/charpipe.c:131-150 | the data is appended to the chain, over as many nodes as it takes; other chains unchanged; every node, new ones included, in one list |
| CharPipe.Pipes.Write | qemu/charpipe.c:95-152 | all data is taken, past an empty chain to a peer that reads and else to the end of the chain, exactly as Written says; other halves unchanged; every node allocated is in one list |
| CharPipe.Pipes.PollNode | qemu/charpipe.c:181-198 | one turn asks, clamps, gives and drops exactly as PollOnce does |
| CharPipe.Pipes.Poll | qemu/charpipe.c:155-200 | the loop makes turns of PollOnce on the bytes that lie together until the chain is empty or the peer has answered 0; other halves unchanged; every node in one list |
| CharPipe.Pipes.BufferWrite | qemu/charpipe.c:293-342 | all data is taken, in order, by the endpoint or the chain, exactly as BufferWritten says |
| CharPipe.Pipes.BufferPoll | qemu/charpipe.c:345-383 | the loop offers the bytes that lie together until the chain is empty or the endpoint has taken less than it was offered |
| CharPipe.Pipes.Close | qemu/charpipe.c:80-92 | every node of the chain goes to the free list; other halves unchanged |
| CharPipe.Pipes.Init | qemu/charpipe.c:203-217 | the chain is forgotten; every node is still in a list if and only if no bytes waited in it |
| CharPipe.LoseNodes | qemu/charpipe.c:203-217 | a half closed, written to and opened again: some node is in no list |
| CharPipe.OverrunPeer | qemu/charpipe.c:181-198 | on objects: a half without chr_can_read gives its peer a byte that it has no room for |
| CharPipe.StallHalf | qemu/charpipe.c:181-185 | on objects: a half with chr_can_read, and a peer without, keeps a byte for ever |
| CharPipe.MovedKeeps | qemu/charpipe.c:80-383 | every operation adds exactly the bytes written to what was delivered and waits, and keeps flow control where the settings allow it |
| CharPipe.Drive | qemu/charpipe.c:25-383 | over every run of writes, polls and closes on any halves: a half that is not closed is a FIFO, what its peer got followed by its chain being all that was written, in order; every node ever allocated is in exactly one list; no peer is given more than it answered, where this half has chr_can_read or the peer has none |
| Des.FinalUndoesInitial | qemu/d3des.c:374-392 | the final permutation undoes the initial one up to the half swap |
| Des.InitialUndoesFinal | qemu/d3des.c:327-345 | and conversely |
| Des.InitialIsStandard | qemu/d3des.c:327-345 | the masked exchanges are the table IP of FIPS 46-3 ("Enciphering"), each half rotated left by one |
| Des.SelectionIsExpansion | qemu/d3des.c:348-363 | on rotated halves, the selected six-bit groups are those of the expansion E of FIPS 46-3 |
| DesBoxes.Table1 | qemu/d3des.c:178-194 | each word of SP1 is S-box S1 of FIPS 46-3 followed by the permutation P, rotated left by one |
| DesBoxes.Table2 | qemu/d3des.c:196-212 | the same for SP2 and S2 |
| DesBoxes.Table3 | qemu/d3des.c:214-230 | the same for SP3 and S3 |
| DesBoxes.Table4 | qemu/d3des.c:232-248 | the same for SP4 and S4 |
| DesBoxes.Table5 | qemu/d3des.c:250-266 | the same for SP5 and S5 |
| DesBoxes.Table6 | qemu/d3des.c:268-284 | the same for SP6 and S6 |
| DesBoxes.Table7 | qemu/d3des.c:286-302 | the same for SP7 and S7 |
| DesBoxes.Table8 | qemu/d3des.c:304-320 | the same for SP8 and S8 |
| DesStandard.MangleIsStandard | qemu/d3des.c:347-372 | on a rotated half and a round key arranged by cookey, one round adds f(R, K) of FIPS 46-3, rotated |
| DesStandard.EncipherIsStandard | qemu/d3des.c:322-394 | desfunc is the cipher of FIPS 46-3 for any list of round keys: IP of its output is R16 L16 |
| DesKeys.CdIsSource | qemu/d3des.c:72-93 | bit j of C and D in round i is the key bit that PC1 names, after the rotations, bytes read low bit first |
| DesKeys.RoundKeyIsStandard | qemu/d3des.c:79-122 | for every key and round the cooked words hold the six bits of each S-box of K of FIPS 46-3 at the place where the round function takes them |
| DesKeys.BlockBits | qemu/d3des.c:152-163 | a block is read octet after octet, most significant bit first, as FIPS 46-3 numbers its bits |
| DesKeys.DesIsStandard | qemu/d3des.c:67-150 | deskey with EN0 followed by des is the cipher of FIPS 46-3, for every key, bytes read low bit first, and every block |
| Des.RoundsUndone | qemu/d3des.c:347-372 | for any round function, the rounds with reversed keys undo the rounds |
| Des.EncipherUndone | qemu/d3des.c:322-394 | desfunc with the round keys reversed inverts desfunc, for every block and every list of keys |
| DesCode.ScheduleReversed | qemu/d3des.c:79-98 | the schedule DE1 builds is that of EN0 reversed pair by pair |
| DesCode.MangleSame | qemu/d3des.c:347-372 | the round function on 64-bit words agrees with the one on 32-bit words for keys with anything above bit 32 |
| DesCode.InitialSame | qemu/d3des.c:327-345 | the initial permutation on 64-bit words is the 32-bit one |
| DesCode.FinalSame | qemu/d3des.c:374-392 | the bits that the unmasked rotations leave above bit 32 do not reach the low 32 |
| DesCode.BytesRoundTrip | qemu/d3des.c:152-176 | scrunch and unscrun are inverse to each other |
| DesCode.DesUndone | qemu/d3des.c:67-150 | deciphering with DE1 gives back every block enciphered with EN0, for every key |
| DesEngine.DoubleRound | qemu/d3des.c:347-372 | one turn of the loop is two rounds of the network |
| DesEngine.SelectBits | qemu/d3des.c:74-78 | pc1m holds the key bits in the order of PC1 |
| DesEngine.RotateBits | qemu/d3des.c:84-93 | pcr holds them with each half rotated |
| DesEngine.CollectBits | qemu/d3des.c:94-97 | the two raw words of a round |
| DesEngine.RawKeys | qemu/d3des.c:79-98 | each round's words are at their place, in order for EN0 and in reverse for DE1 |
| DesEngine.Register.CookKey | qemu/d3des.c:102-122 | KnL holds the cooked words of every round, which DesKeys.RoundKeyIsStandard identifies |
| DesEngine.Register.UseKey | qemu/d3des.c:133-140 | KnL is the array given |
| DesEngine.Register.DesKey | qemu/d3des.c:67-100 | KnL holds the schedule of the key, the round keys of FIPS 46-3 in order or reversed |
| DesEngine.Register.Scrunched | qemu/d3des.c:152-163 | the two words of a block, with nothing above bit 32 |
| DesEngine.Register.Unscrunched | qemu/d3des.c:165-176 | the eight bytes of the low 32 bits of two words |
| DesEngine.Register.RunRounds | qemu/d3des.c:347-372 | the loop on 64-bit words computes the sixteen rounds on 32-bit words |
| DesEngine.Register.DesFunc | qemu/d3des.c:322-394 | the low 32 bits of the result are Encipher of the block under the words of KnL |
| DesEngine.Register.Des | qemu/d3des.c:142-150 | the output block, which may be the input block, is the enciphered block |
| DesEngine.EncipherBlock | qemu/d3des.c:67-150 | on a register, enciphering a block in place is the cipher of FIPS 46-3 under its sixteen round keys |
| DesEngine.RoundTrip | qemu/d3des.c:67-150 | on one register, enciphering in place and deciphering in place with the same key restores the block |

## Left out

- `sort_ram_list`, and how `qsort` orders equal requests: the sender starts from a list in order, and merging is proved for any sorted order of the requests, as the sort key is the start sector only.
- Gap merging through `bdrv_merge_requests`, and a driver's own callbacks in general: they are not part of this model; block drivers appear as scripts or functions of outcomes.
- `ram_load` with version_id 4, bandwidth and downtime estimates, and `madvise`: the stream the sender writes is registered with version 3; the rest is clocks, floating point or advice to the host.
- MigrationCode.Destination.HostFromStreamOffset: on a stream cut short inside a name the source searches for what was read followed by whatever the uninitialised buffer held; here the record fails.
- MigrationCode.Destination.CheckSizes: on a block table cut short the source reads zeros on and returns -EINVAL; here it fails with Eio.
- MigrationCode.Destination.ReadPage: for a page cut short the source stores the bytes it read before -EIO is returned; the contract says only that it fails.
- MigrationCode.Destination.RamLoad: a section cut short fails here as in the source, but which of the two error codes is returned, and what was stored before, is not modelled.
- RamSender: block lengths and totals are below 2^64 and block names are distinct, as the source relies on; guest stores happen between pages and not while one is being copied.
- SimulatorTheorems.RunIsLru: keys must not be the tag of empty slots and fewer than 2^32 lookups be made, because the claim fails otherwise (StampHorizon.LruHorizon, StampHorizon.EmptyTagHits).
- Files, directories, printing, result records and argument parsing of `main.c` and of the drivers; `get_ptes` and the hooks into the emulator, whose answer is any walk of level 1 to 3.
- `started` and `tlbtrace_toggle`: the tracer is modelled between a start and a stop.
- The `free_qiov` and `free_buf` bookkeeping of `multiwrite_merge`, and iovecs of external memory (`nalloc` of -1).
- ByteIo.Device.Write: the dirty bitmap is not modelled, because its `1 << bit` depends on the widths of `int` and `long`; offsets and sector numbers are unbounded integers.
- Commit.CopyKeepsView: an `is_allocated` that reports a run of 0 sectors, as qcow2 does on an error, would keep the loop from ending; the driver contract here is a run of at least one sector, all alike.
- Commit.OverlayDevice.CopyAll: the same contract of at least one sector per run.
- Commit.OverlayDevice.BdrvCommit: `bdrv_flush` calls change nothing visible here, and reopening keeps the size of the backing image.
- BufferedFile.BufferedOutput.PutBuffer: says when `put_ready` is due and does not call it; what it puts in turn is the next event of a run. Wrap-around of `bytes_xfer` is not modelled, nor is `freeze_output` cleared from outside.
- BufferedFile.BufferedOutput.Tock: the same for its `put_ready`.
- BufferedFile.BufferedOutput.CloseFile: `wait_for_unfreeze` has no effect here, and a backend that answers -EAGAIN for ever keeps the source's loop going; here a script of answers is finite and its end is an error.
- CharPipe.Pipes.Write: negative lengths, negative answers of `chr_can_read`, and handlers that call back into the same pipe are not modelled.
- CharPipe.Pipes.AddHandlers: flow control over runs is stated for settings that do not change within the run.
- The table of eight pipes and eight buffers and the choice of a free one: any number of halves, each with its own flags.
- `cpkey`: KnL is read directly.
- `qemu/aes.c`, consoles, devices, threads and the other parts of the emulator.
