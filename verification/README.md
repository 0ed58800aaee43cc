# DBSos kernel model

DBSos is a small operating system kernel. This project models the parts of it whose
correctness does not show in any single function, and proves what they promise. Hardware is
replaced by plain state: physical memory is a map from frames to 512 words, a disk is a
sequence of sectors, the NVMe device is a second party whose steps interleave with the
driver's.

- **Paging and frames** (`Words`, `Paging`, `Mapping`, `Ways`, `Teardown`, `Identity`,
  `UserAccess`, `Vm`, `VmWitness`, `FrameAllocator`, with page and sector types in `Units`).
  Four-level tables edited in place over frames from a bitmap allocator. The meaning of a table
  tree is the walk the processor makes: from a virtual address to a physical address and the
  rights left after all levels. A ghost map from paths to frames describes the tree; every
  operation is proved on that meaning, and the rights of a new page are stated by the memory
  before the call alone.
- **Cryptography and the profile store** (`AesField`, `AesStandard`, `Aes`, `AesLoops`, `AesMeaning`,
  `Cbc`, `Sha256`, `ShaConstants`, `Hash`, `KnownDigest`, `Hmac`, `Netman`, over the bytes of
  `Bytes`).
  The standards are written as functions, their constants derived from the definitions in the
  standards; the kernel's loops are methods proved to compute them; the round trips are theorems
  about the functions.
- **FAT chains and long names** (`FatTable`, `FatNumber`, `FatChain`, `FatBytes`, `FatWrite`,
  `FatVolume`, `FatTheorems`, `FatRun`, `LongNames`). A table entry as a field of the number that
  the table is, chains as lists determined by the table, and the bytes of a file as the
  concatenation of its clusters.
- **Kernel heap** (`FreeList`, `HeapBlocks`, `HeapSteps`, `HeapSpec`, `Heap`), with the header
  size as a parameter.
- **IPC and capabilities** (`Ipc`, `IpcCalls`, `Caps`, `Multisets`). The rendezvous as a transition
  system, and the calls as methods that compute its steps.
- **Concurrent rings** (`EventRing`, `NvmeQueue`). Every load and store is a step of its own.

`dafny verify dfyconfig.toml` checks the project.

## Where the code falls short of its promise

The model follows the code. Each of these has the exact condition under which the promise does
hold, and an input or a run on which it fails, unless the condition itself names one.

- `is_user_range_mapped` looks at the user bit of the leaf only; user code reaches the page
  if and only if every table above carries the bit too (`UserReachable`). The loader's own
  mapping of the low megabyte lacks it (`UserCheckNotEnough`).
- `unmap_page` removes exactly the page if and only if the address lies in neither a 2 MB nor a
  1 GB page (`UnmapExactly`); in a 2 MB page it removes the whole 2 MB (`UnmapTakesMore`).
- `virt_to_phys` answers 0 under a 1 GB page, and is right exactly elsewhere (`VirtToPhys`,
  `GiantUnseen`).
- `palloc_n` counts a run across the wrap of its scan. The pages are the caller's if and only if
  the run does not straddle the end (`RunIsOwned`), which depends on the free pages at both ends
  of the region (`StraddlesWhen`); four calls lead there (`StraddleRun`).
- `sha256_two_part` pads one byte too many; it compresses the padded message exactly when the
  length field is zero (`TwoPartPadding`), and its own assertion never holds (`HashTwoPart`).
- Heap blocks tile exactly when the header is a multiple of 16 bytes; the structure has 8
  (`FirstBlockTiles`, `EightByteHeader`). The comment in the source says 16.
- `kfree` joins one block on each side; the freed block keeps a free neighbour exactly where two
  free blocks lay beside it (`FreedNeighbours`). Two free blocks come to lie side by side exactly
  when a `kmalloc` that fits nowhere grows the heap by fewer pages than it needs behind a free
  block (`PairsExactly`, `NeverAPair`, `FreePairRun`).
- `kmalloc` computes with 64-bit sizes: the block size and page count are right if and only if
  the block size stays a page below 2^64 (`SizesFit`); at 2^64 - 1 bytes it wraps to a bare
  header (`HugeRequest`).
- A task that blocked in a send can later receive a message nobody sent (`StaleExample`,
  `StaleExactly`).
- A twelve-bit table entry straddles two sectors if and only if its cluster is 341 or 682 modulo
  1024 (`Straddles`); the code reads past its buffer there.
- `alloc_cluster` ignores the size of the volume; on a full one it answers 0 if and only if nothing
  behind the table reads zero (`AllocCluster`), and otherwise with a cluster that does not exist
  (`FullVolume`).
- `free_chain` stops after 100 000 clusters, so a file gives back all of its clusters if and only
  if it has no more (`FreedAfterGrowth`, `EveryRun`).

## Model

| member | source | states |
|---|---|---|
| Words.IndicesNamePage | kernel/src/vm.rs:44-58 | two addresses have the same four table indices exactly when they lie in the same 4 KB page of the 48-bit space |
| Words.IndicesNameBigPage | kernel/src/vm.rs:44-58 | the upper three indices agree exactly within one 2 MB page |
| Words.IndexMeaning | kernel/src/vm.rs:44-58 | the four indices are bits 39 to 47, 30 to 38, 21 to 29 and 12 to 20, and the frame of a word is the number these make together |
| Words.FrameRoundTrip | kernel/src/vm.rs:20-26 | a frame number packed into a table word and masked out again is that number, for every frame |
| Words.WordRoundTrip | kernel/src/vm.rs:20-26 | masking a word to its address bits is the packing of its frame number |
| Words.FrameIgnoresFlags | kernel/src/vm.rs:20-26 | flags without address bits do not disturb the frame that a word names |
| Paging.Effect | kernel/src/vm.rs:63-132 | a write to one entry of a well-formed tree changes the translation of exactly the addresses that pass through that entry |
| Paging.LeafWrite | kernel/src/vm.rs:140-149 | storing a leaf entry keeps the tree well formed and translates every address below it with the rights of all levels above |
| Paging.LinkKeepsWf | kernel/src/vm.rs:71-90 | hooking a fresh frame in as a table keeps the tree well formed |
| Paging.EmptyLinkKeepsMeaning | kernel/src/vm.rs:71-90 | adding an empty table changes the translation of no address |
| Paging.SplitKeepsMeaning | kernel/src/vm.rs:105-116 | replacing a 2 MB entry by its 512 entries keeps, for every address, the physical address and the present, write, user and no-execute rights combined over all levels |
| Mapping.GrownTransitive | kernel/src/vm.rs:63-132 | growth of the tree that keeps every translation composes, so a walk that creates tables level by level keeps them all |
| Mapping.GrownBySplit | kernel/src/vm.rs:105-116 | a split costs exactly one fresh frame and keeps every translation |
| Mapping.MapWrite | kernel/src/vm.rs:143-144 | the final store of map_page translates the page to the given frame with the given flags and nothing else |
| Ways.LinkKeepsWay | kernel/src/vm.rs:76-123 | a table linked with the flags of the code leaves every address on whose way it lies the rights it had |
| Ways.WayOpen | kernel/src/vm.rs:76-123 | where all links are open to users and writing, the tables take no right away |
| Mapping.LeafAddressCorrect | kernel/src/vm.rs:192-207 | the address put together from a leaf is the one the processor computes, for 4 KB and 2 MB leaves |
| Mapping.UnmapWrite | kernel/src/vm.rs:152-159 | clearing the entry found removes exactly the page, or the whole 2 MB page where the entry is a large one |
| Mapping.NothingToUnmap | kernel/src/vm.rs:152-155 | an address without a translation leaves nothing to clear |
| Mapping.EmptySpace | kernel/src/vm.rs:210-218 | a zeroed root translates nothing and is a well-formed tree |
| Teardown.LoopStep | kernel/src/vm.rs:308-321 | the frames visited below one entry are disjoint from those already freed, so none is freed twice |
| Teardown.AllLower | kernel/src/vm.rs:301-324 | in a tree confined to the lower half the teardown visits every table |
| Identity.BigWrite | kernel/src/vm.rs:287-291 | the large entry of identity_map_2mb maps its 2 MB to themselves and changes no other address |
| Identity.IdentityExtends | kernel/src/vm.rs:261-293 | the effect of consecutive 2 MB steps is that of the whole range |
| Identity.GiantIs | kernel/src/vm.rs:276-285 | a 1 GB page is exactly what translates an address that has no page directory; so growing the tree brings none |
| Identity.RootEntry | kernel/src/vm.rs:259-260 | within one 512 GB range every step uses the root entry of the start |
| UserAccess.UserReachable | kernel/src/vm.rs:160-189 | outside 1 GB pages, user code reaches an address if and only if the leaf test holds and every table above also carries the user bit |
| VmWitness.UserCheckNotEnough | kernel/src/vm.rs:160-189 | the kernel itself builds such a tree: after create and the identity mapping of the low megabyte for user code, the check accepts a page that user code cannot reach |
| Vm.Kernel.PallocFrame | kernel/src/memory.rs:90-115 | a frame that was not taken, or 0 exactly when none is free |
| Vm.Kernel.FillSplit | kernel/src/vm.rs:108-114 | the loop over the 512 new entries fills in the split table |
| Vm.Kernel.AddTable | kernel/src/vm.rs:71-77 | one table more, every translation kept, also when frames run out |
| Vm.Kernel.SplitPage | kernel/src/vm.rs:105-116 | the split in place keeps every translation, also when frames run out |
| Vm.Kernel.WalkOrCreate | kernel/src/vm.rs:63-132 | finds the entry that decides the address; creating keeps every translation; fails only on a 1 GB page, an absent table without create, or no free frame |
| Vm.Kernel.MapPage | kernel/src/vm.rs:140-149 | exactness: on success every address of the page translates to the given frame plus its offset, with the rights that the flags and the tables already linked before the call leave it, so that new tables take none away; every other address as before; on failure at any level every address as before; table frames are accounted for |
| Vm.Kernel.MapInNewSpace | kernel/src/vm.rs:76-149 | in a new address space, after any run of map_page and unmap_page, a page reported as mapped has exactly the write, user and no-execute rights of its flags |
| Vm.Kernel.UnmapPage | kernel/src/vm.rs:152-159 | removes exactly the page (the whole 2 MB for a large page, nothing under a 1 GB page) and takes or frees no frame |
| Mapping.UnmapExactly | kernel/src/vm.rs:152-159 | unmap_page of a mapped address removes that page and nothing else if and only if it lies in neither a 2 MB nor a 1 GB page |
| VmWitness.UnmapTakesMore | kernel/src/vm.rs:152-159 | a run of the kernel whose unmap_page of one page does what the contract of unmap_page says and not the removal of that page alone: its neighbour goes too |
| Vm.Kernel.VirtToPhys | kernel/src/vm.rs:192-207 | 0 for an address that faults; for a mapped one the physical address of the processor walk, if and only if no 1 GB page covers it or it is mapped to 0; no change to memory |
| Vm.Kernel.MapThenTranslate | kernel/src/vm.rs:140-207 | map_page then virt_to_phys: after a success every address of the page gives the new frame plus its offset; failure only under a 1 GB page or without frames |
| VmWitness.GiantUnseen | kernel/src/vm.rs:192-207 | a well-formed tree with a 1 GB page: the processor translates the address, virt_to_phys answers 0 |
| Vm.Kernel.IsUserRangeMapped | kernel/src/vm.rs:164-189 | true exactly for the empty range, or a range inside the lower half all of whose pages pass the leaf test; overflow and null included; on an accepted range user code reaches every byte if and only if the upper tables of every page carry the user bit |
| Vm.Kernel.CreateAddressSpace | kernel/src/vm.rs:210-218 | a fresh root that translates nothing, or 0 when no frame is free |
| Vm.Kernel.IdentityMap2mb | kernel/src/vm.rs:258-294 | every address of the range up to where frames ran out maps to itself, also where 2 MB pages were mapped before, with exactly the rights of the flags under the tables linked before, and none for users under a table linked now; every other address keeps its translation |
| Vm.Kernel.FreePageDirectory | kernel/src/vm.rs:312-319 | frees each page table below a directory once, and the directory |
| Vm.Kernel.FreePointerTable | kernel/src/vm.rs:307-321 | frees each table below a pointer table once, and the table itself |
| Vm.Kernel.DestroyAddressSpace | kernel/src/vm.rs:301-324 | gives back exactly the table frames of the lower half and no data frame |
| Vm.Kernel.Lifecycle | kernel/src/vm.rs:210-324 | conservation: create, identity mapping of any ranges, overlapping ones too, as far as frames last, any run of lower-half map_page (also failing) and unmap_page, then destroy, leave the allocator with exactly the frames it had |
| FrameAllocator.MarkedAfter | kernel/src/memory.rs:206-219 | setting or clearing one bit changes the set of marked pages by that page alone |
| FrameAllocator.NextFitUnique | kernel/src/memory.rs:97-111 | the page that the hint and the two scans select is determined |
| FrameAllocator.RunIsOwned | kernel/src/memory.rs:117-146 | the n pages reported by palloc_n are free pages of the region exactly when the run does not straddle the end |
| FrameAllocator.StraddlesWhen | kernel/src/memory.rs:124-142 | the reported run straddles the end if and only if no run of n lies between hint and end, and the free pages at the end and at the start together make one |
| FrameAllocator.StraddleRun | kernel/src/memory.rs:90-170 | four calls on a region of four pages after which palloc_n(2) reports a page that does not exist |
| FrameAllocator.PhysAllocator.Init | kernel/src/memory.rs:25-68 | every page after the bitmap is free and the count agrees |
| FrameAllocator.PhysAllocator.Palloc | kernel/src/memory.rs:90-115 | fails exactly when every page is in use, despite the hint; otherwise the next-fit page, not in use before |
| FrameAllocator.PhysAllocator.FindRun | kernel/src/memory.rs:124-142 | finds the first run of n in scan order, or there is none |
| FrameAllocator.PhysAllocator.PallocN | kernel/src/memory.rs:117-146 | n consecutive pages that were free, the first run in scan order, and the hint behind it; 0 exactly when there is no run; asked for no page it takes none and answers with the address of a free one |
| FrameAllocator.PhysAllocator.Pfree | kernel/src/memory.rs:148-170 | releases the page; a free or out-of-range page changes nothing, and a count equal to the clear bits is kept |
| FrameAllocator.PhysAllocator.Run | kernel/src/memory.rs:90-170 | over any run of palloc, palloc_n without straddling, and pfree the log replays page by page: no page is handed out twice without a release between |
| AesField.SboxInverse | kernel/src/crypto.rs:235-271 | the second table undoes the first on every byte |
| AesStandard.SboxMeaning | kernel/src/crypto.rs:235-252 | section 5.1.1 of FIPS 197: the table maps every byte to the affine image of its inverse in GF(2^8), plus 0x63 |
| AesField.MulMeaning | kernel/src/crypto.rs:297-305 | the nested shifts are multiplications by 2, 3, 9, 11, 13 and 14 in GF(2^8) |
| AesStandard.XtimeIsProduct | kernel/src/crypto.rs:297-305 | the shift is the polynomial product with x modulo x^8 + x^4 + x^3 + x + 1 |
| AesField.ColumnInverse | kernel/src/crypto.rs:322-361 | InvMixColumns undoes MixColumns on every column |
| Aes.ShiftRowsMeaning | kernel/src/crypto.rs:316-321 | the byte moves are the row rotations of section 5.1.2 of FIPS 197 |
| Aes.Unwinding | kernel/src/crypto.rs:308-364 | after n inverse rounds the state is the cipher state before the last n rounds |
| Aes.CipherInverse | kernel/src/crypto.rs:308-364 | the inverse cipher undoes the cipher for every block and every eleven round keys |
| AesLoops.RconMeaning | kernel/src/crypto.rs:273-273 | the table of round constants holds the powers of x |
| AesLoops.ExpandKey | kernel/src/crypto.rs:275-295 | the 176 bytes are the 44 words of section 5.2 of FIPS 197 |
| AesLoops.EncryptBlock | kernel/src/crypto.rs:308-335 | the loops compute the cipher of section 5.1 under the expanded key, and decryption recovers the block |
| AesMeaning.EncryptExactly | kernel/src/crypto.rs:275-335 | the ciphertext is the one solution of the equations of sections 5.1 and 5.2 of FIPS 197, written byte by byte over the product of the field |
| AesLoops.DecryptBlock | kernel/src/crypto.rs:338-364 | the loops compute the inverse cipher of section 5.3 under the expanded key |
| AesLoops.DecryptEncrypt | kernel/src/crypto.rs:308-364 | for every key and block decryption undoes encryption |
| Cbc.UnpadExactly | kernel/src/crypto.rs:413-419 | the padding check accepts exactly the padded messages of section 6.3 of RFC 5652 and gives back the message |
| Cbc.UnchainedChained | kernel/src/crypto.rs:369-411 | unchaining n blocks of a chained ciphertext gives the first n plaintext blocks |
| Cbc.OpenSealed | kernel/src/crypto.rs:369-420 | for every key, vector and message, opening a sealed message gives that message |
| Cbc.SealedExactly | kernel/src/crypto.rs:369-390 | the sealed message is the only sequence in which every block encrypts the sum of a block of the padded message and the block before it, the vector before the first |
| Cbc.CbcEncrypt | kernel/src/crypto.rs:369-390 | refuses exactly when the padded message does not fit and then writes nothing; otherwise writes the sealed message and nothing behind it |
| Cbc.CbcDecrypt | kernel/src/crypto.rs:393-420 | succeeds exactly when the ciphertext fits and opens, with the message in front; says which bytes are overwritten in every case |
| Sha256.WordBytes | kernel/src/crypto.rs:24-27 | four bytes in big-endian order and the word determine each other |
| Sha256.CompressBlock | kernel/src/crypto.rs:22-49 | the loops compute the compression function of section 6.2.2 of FIPS 180-4 |
| ShaConstants.RoundConstants | kernel/src/crypto.rs:11-20 | section 4.2.2 of FIPS 180-4: the constants are the first 32 fractional bits of the cube roots of the first 64 primes |
| ShaConstants.PrimesInOrder | kernel/src/crypto.rs:11-20 | the list starts with 2 and goes from each prime to the next, so it is that of the first 64 |
| ShaConstants.InitialState | kernel/src/crypto.rs:51-55 | section 5.3.3 of FIPS 180-4: the initial state is that of the square roots of the first eight primes |
| Hash.ZerosLeast | kernel/src/crypto.rs:64-75 | the padding has the least number of zero bytes, as section 5.1.1 of FIPS 180-4 asks |
| Hash.BigEndianAt | kernel/src/crypto.rs:71-73 | the shifted bytes of the length field are its big-endian bytes |
| Hash.Stream | kernel/src/crypto.rs:131-160 | padding in a 128-byte tail buffer gives the fold of the compression function over the padded message |
| Hash.HashMessage | kernel/src/crypto.rs:51-85 | for every message the digest is the fold over the padded message from the initial state |
| KnownDigest.AbcDigest | kernel/src/crypto.rs:434-444 | the digest of the message abc is the one that FIPS 180-4 gives and the self test asks for |
| Hmac.LooseLength | kernel/src/crypto.rs:193-194 | the two-part hash always ends one byte into a block |
| Hmac.TwoPartPadding | kernel/src/crypto.rs:163-208 | the blocks it compresses are the padded message exactly when the length field is zero, so for no message of 1 to 2^61 - 1 bytes |
| Hmac.HashTwoPart | kernel/src/crypto.rs:163-208 | computes that digest, and leaves one byte in the buffer where the code asserts none |
| Hmac.HmacSha256 | kernel/src/crypto.rs:89-128 | section 2 of RFC 2104 for every key and every message of at most 64 bytes; for longer ones the two-part hash inside |
| Hmac.MacMeaning | kernel/src/crypto.rs:89-128 | the inner and outer block differ from the key, filled up with zeros, by 0x36 and 0x5c in every byte |
| Hmac.Pbkdf2 | kernel/src/crypto.rs:211-231 | section 5.2 of RFC 8018 for the first 60 bytes of salt and up to 32 bytes of output, zero iterations acting as one; the rest of the buffer is kept |
| Hmac.DerivedMeaning | kernel/src/crypto.rs:211-231 | the derived bytes are the sum of the chain of codes that starts from the salt followed by block number 1 |
| Netman.NewProfileReveals | kernel/src/netman.rs:108-127 | a profile built for a network and passphrase names the network and reveals the passphrase, whatever salt and vector |
| Netman.NewProfileSeals | kernel/src/netman.rs:48-127 | what a profile holds is the passphrase sealed under the first sixteen bytes that 1000 iterations derive from the address and the salt |
| Netman.ParseBack | kernel/src/netman.rs:175-219 | a record read back is the profile |
| Netman.FileLayout | kernel/src/netman.rs:167-193 | where every field of every profile lies in the file |
| Netman.LoadSaved | kernel/src/netman.rs:167-224 | reading a saved file gives back every profile, their number, and the last connection where it is in the table, whatever the table held before |
| Netman.Store.Find | kernel/src/netman.rs:80-90 | the first profile of that name, or none |
| Netman.Store.Add | kernel/src/netman.rs:93-129 | exactly valid lengths and a known name or a free slot are accepted; one slot then holds the secret, the others are kept, names stay distinct and the file is saved as far as the disk takes it; the result is that of the save; otherwise nothing changes |
| Netman.Store.Reveal | kernel/src/netman.rs:132-145 | gives the secret of the profile, exactly when there is one |
| Netman.Store.Save | kernel/src/netman.rs:167-193 | the file becomes what the disk took of the encoding of the table; success exactly when it took all of it |
| Netman.Store.Load | kernel/src/netman.rs:196-224 | the table becomes the reading of the file, stopping at a bad record |
| Netman.RememberAcrossRestart | kernel/src/netman.rs:93-224 | a passphrase of at most 63 bytes survives a successful add, the loading of the file into a new store, find and reveal |
| FatTable.Straddles | kernel/src/fat_driver.rs:246-256 | an entry straddles two sectors if and only if entries are twelve bits wide and the cluster is 341 or 682 modulo 1024 |
| FatTable.ReadWritten | kernel/src/fat_driver.rs:246-330 | for all three widths a written entry reads back as the value cut to the width |
| FatTable.ReadOther | kernel/src/fat_driver.rs:277-330 | every other entry reads as before, also the twelve-bit neighbour that shares a byte |
| FatTable.ReservedBitsKept | kernel/src/fat_driver.rs:320-321 | the reserved top bits of a 32-bit entry keep their value |
| FatTable.SetEntryMeaning | kernel/src/fat_driver.rs:277-330 | a write changes one entry of the table, keeps two equal copies equal, and touches no sector outside the tables |
| FatNumber.EntryIsField | kernel/src/fat_driver.rs:246-274 | with the table read as one little-endian number, the entry of a cluster is its field of 12, 16 or 32 bits, of which the wide one counts 28 |
| FatNumber.OnlyFieldWritten | kernel/src/fat_driver.rs:277-330 | a write changes exactly the bits of that field |
| FatTable.TableFrame | kernel/src/fat_driver.rs:516-517 | writing data sectors leaves the table and the equality of its copies alone |
| FatChain.ChainUnique | kernel/src/fat_driver.rs:246-338 | the table determines the chain of a cluster |
| FatChain.ChainNoRepeat | kernel/src/fat_driver.rs:246-338 | a chain that ends visits no cluster twice |
| FatChain.ChainAppend | kernel/src/fat_driver.rs:471-476 | linking a free cluster behind a chain gives the longer chain |
| FatChain.CutStops | kernel/src/fat_driver.rs:388-398 | wherever the entries visited can be read, on a cyclic table too, freeing stops by itself by the number of non-zero entries |
| FatChain.CutChain | kernel/src/fat_driver.rs:388-398 | on a chain, freeing clears exactly its first clusters, as many as the bound allows |
| FatChain.FreedAfterGrowth | kernel/src/fat_driver.rs:388-398 | growing and then freeing a file gives back exactly the clusters that were free and those the file had, if and only if the chain is within the bound |
| FatBytes.SectorWrite | kernel/src/fat_driver.rs:504-517 | replacing a part of one sector overwrites that part of the cluster and no other cluster |
| FatBytes.DataByte | kernel/src/fat_driver.rs:358-360 | cluster 2 lies at the start of the data area and the others right behind it, sector by sector |
| FatBytes.FileOverwrite | kernel/src/fat_driver.rs:497-521 | overwriting within one cluster of a file overwrites the file at that place |
| FatWrite.GoodExtend | kernel/src/fat_driver.rs:471-476 | linking a new cluster keeps the state of a write: chain, bytes so far, other clusters, copies, count of free clusters |
| FatWrite.GoodWrite | kernel/src/fat_driver.rs:497-521 | writing the next piece keeps that state |
| FatVolume.Volume.ReadEntry | kernel/src/fat_driver.rs:246-274 | the field of the cluster in the little-endian number of the table; behind the table the bytes of other sectors, behind the disk the end mark |
| FatVolume.Volume.WriteEntry | kernel/src/fat_driver.rs:277-330 | the sector writes change that entry alone, in both copies, and exactly its bits of the number of the table |
| FatVolume.Volume.AllocCluster | kernel/src/fat_driver.rs:370-385 | the first cluster number whose entry reads zero, or 0; it is a cluster of the volume or 0 if and only if one is free or nothing behind the table reads zero |
| FatTheorems.FullVolume | kernel/src/fat_driver.rs:370-385 | a full volume on which alloc_cluster hands out a cluster that does not exist |
| FatWrite.PlainBelowIs | kernel/src/fat_driver.rs:246-256 | the entries below a cluster number all lie inside one sector if and only if they are not twelve bits wide or the number is at most 341 |
| FatVolume.Volume.FreeChain | kernel/src/fat_driver.rs:388-398 | the table becomes the cut one, stopped after 100 000 clusters; the copies agree; no data sector changes |
| FatVolume.Volume.ReadCluster | kernel/src/fat_driver.rs:430-447 | the sector loop copies exactly the wanted bytes of the cluster |
| FatVolume.Volume.ReadChain | kernel/src/fat_driver.rs:403-453 | exactly the bytes of the file from the offset on, as many as file, buffer and the bounds of the two loops allow, and the rest of the buffer as before |
| FatVolume.ReachMeaning | kernel/src/fat_driver.rs:412-427 | how much of a read or write the bounds of the two loops allow: nothing at an offset more than 100 000 clusters in, and otherwise at most 100 000 clusters, the one it starts in among them |
| FatVolume.Volume.WriteCluster | kernel/src/fat_driver.rs:497-521 | the sector loop overwrites exactly the wanted bytes of the cluster |
| FatVolume.Volume.Advance | kernel/src/fat_driver.rs:524-534 | the next cluster of the chain, or a free one linked behind it |
| FatVolume.Volume.WriteChain | kernel/src/fat_driver.rs:456-537 | the file grows by free clusters only, its bytes are the old ones with the returned number of data bytes at the offset, no other cluster changes; the number is what the bounds of the two loops reach, unless the volume ran out of clusters |
| FatTheorems.OtherBytesKept | kernel/src/fat_driver.rs:456-537 | every byte that the file had outside the written range keeps its value |
| FatTheorems.OtherFileKept | kernel/src/fat_driver.rs:456-537 | a file that shared no cluster keeps its links and its bytes |
| FatTheorems.WriteThenFreeConserves | kernel/src/fat_driver.rs:388-537 | writing and then freeing gives back exactly the clusters free before and those the file had, if and only if the chain has at most 100 000 clusters |
| FatTheorems.WriteThenRead | kernel/src/fat_driver.rs:403-537 | a write that reports the full length is read back byte for byte, for files and offsets of any size |
| FatRun.NewFile | kernel/src/fat_driver.rs:1084-1090 | a free cluster becomes a file of its own, its entry an end mark and its sectors zero, and nothing else changes; 0 when none is free |
| FatRun.Carry | kernel/src/fat_driver.rs:370-537 | a new file, a write or a deletion carried out by the routines of the volume is a step of the run below |
| FatRun.StepKeeps | kernel/src/fat_driver.rs:370-537 | no two files share a cluster and the copies of the table agree after every step; every file not named keeps its chain and bytes; no cluster is lost, if and only if no file of more than 100 000 clusters is deleted |
| FatRun.EveryRun | kernel/src/fat_driver.rs:370-537 | the same over any run of new files, writes and deletions |
| FreeList.PushLinks | kernel/src/heap.rs:101-111 | insertion at the head keeps the list linked both ways |
| FreeList.UnlinkLinks | kernel/src/heap.rs:85-98 | removal anywhere keeps the list linked both ways |
| HeapBlocks.WholeBlock | kernel/src/heap.rs:59-66 | the payload of a 16-byte multiple leads back to the whole exactly when the header is a multiple of 16 |
| HeapBlocks.TilesOrdered | kernel/src/heap.rs:79-82 | blocks that tile never overlap |
| HeapBlocks.Rebuild | kernel/src/heap.rs:223-334 | blocks replaced by others over the same addresses keep tiling, headers, free set and live set |
| HeapSteps.TakeWhole | kernel/src/heap.rs:236-256 | taking a free block whole keeps the invariant and adds one live block |
| HeapSteps.TakeFront | kernel/src/heap.rs:240-253 | splitting keeps the invariant and adds one live block |
| HeapSteps.SplitsWhen | kernel/src/heap.rs:240-256 | a block is split exactly when a header and 32 bytes more are left over |
| HeapSteps.Release | kernel/src/heap.rs:298-300 | marking a block free and listing it keeps the invariant and removes that live block |
| HeapSteps.Join | kernel/src/heap.rs:303-331 | joining two free neighbours keeps the invariant and the live blocks |
| HeapSteps.FreedNeighbours | kernel/src/heap.rs:302-331 | after kfree the block has a free neighbour exactly where the block beyond a joined one was free |
| HeapSteps.FreedKeepsNoPair | kernel/src/heap.rs:302-331 | a heap without two neighbouring free blocks has none after kfree |
| HeapSteps.FreedAlone | kernel/src/heap.rs:302-331 | without free pairs before, the block just freed stands alone, joined with what was free beside it |
| HeapSteps.AllottedKeepsNoPair | kernel/src/heap.rs:236-256 | taking a free block, whole or split, makes no free pair |
| HeapSteps.GrowthPairs | kernel/src/heap.rs:148-167 | growth makes a free pair exactly where the last block was free |
| HeapSpec.GrantEnough | kernel/src/heap.rs:114-170 | growth gets the pages needed if and only if that many are to be had and the heap then stays within 256 MiB |
| HeapSpec.GrantMeaning | kernel/src/heap.rs:114-170 | it gets the pages needed, a quarter of the heap or four, whichever is most, unless the supply or the room below the limit is used up |
| HeapSpec.Retried | kernel/src/heap.rs:262-274 | the retry after a growth that was granted does what kmalloc as a whole is said to do: the new block is used, or the second growth gets nothing |
| HeapSpec.PairsExactly | kernel/src/heap.rs:223-275 | kmalloc makes two neighbouring free blocks if and only if no block fits, the growth granted is smaller than needed, and the last block is free |
| HeapSpec.NeverAPair | kernel/src/heap.rs:223-334 | over any run of kmalloc and kfree there is never a free pair if and only if no request grew the heap in vain behind a free block |
| HeapSpec.PutAlone | kernel/src/heap.rs:302-331 | a block freed while there is no free pair has no free neighbour |
| HeapSpec.SizesFit | kernel/src/heap.rs:59-66 | on 64-bit sizes the block size and the page count come out right if and only if the block size stays a page below 2^64 |
| HeapSpec.HugeRequest | kernel/src/heap.rs:59-66 | asked for 2^64 - 1 bytes, the block size wraps to a bare header, which every block covers |
| Heap.FreePairRun | kernel/src/heap.rs:173-334 | a run on a heap of one page, with one page more to be had, after which the freed block has a free neighbour |
| Heap.KernelHeap.constructor | kernel/src/heap.rs:173-206 | the first block covers the heap and the invariant holds |
| Heap.KernelHeap.FreeListRemove | kernel/src/heap.rs:85-98 | the pointer updates take the entry out of the list |
| Heap.KernelHeap.Grow | kernel/src/heap.rs:114-170 | the heap grows by the pages needed, a quarter of it or four, whichever is most, unless the supply or the room below 256 MiB is used up; one free block more at the end and at the head of the list, or nothing changed |
| Heap.KernelHeap.FirstFit | kernel/src/heap.rs:231-259 | the first entry of the list that is large enough; null means that no free block is |
| Heap.KernelHeap.Kmalloc | kernel/src/heap.rs:223-275 | the blocks, the end of the heap and the supply after the call, exactly; null if and only if no byte is asked for, or no block is large enough and the pages that hold it are not to be had or would pass 256 MiB; a 16-byte aligned block with room for the size that was not live before, the first of the list that fits; a free pair appears if and only if the heap grows in vain behind a free block |
| Heap.KernelHeap.FindPrevious | kernel/src/heap.rs:313-322 | the scan finds the block before exactly when it is free |
| Heap.KernelHeap.Kfree | kernel/src/heap.rs:287-334 | exactly that block is no longer live, and the blocks are the coalesced ones; null and double free change nothing |
| Heap.LiveApart | kernel/src/heap.rs:223-334 | buffers of the sizes asked for, in different live blocks, never overlap and lie inside the heap |
| Heap.ListedOnce | kernel/src/heap.rs:85-111 | the list holds each free block exactly once and no block in use |
| Heap.FirstBlockTiles | kernel/src/heap.rs:196-204 | the first block ends at the end of the heap exactly when the header is a multiple of 16 bytes |
| Heap.EightByteHeader | kernel/src/heap.rs:25-29 | with the eight bytes of the structure it reaches past the end |
| Heap.Serve | kernel/src/heap.rs:173-334 | over any run of requests the live blocks are exactly the pointers held, the buffers held are pairwise disjoint and inside the heap at the sizes asked for; the run never has two neighbouring free blocks if and only if no request grew the heap in vain behind a free block; and a block freed without such a pair ends up alone |
| Ipc.StepKeeps | kernel/src/ipc.rs:32-164 | every step keeps the invariant: no sender waits for a waiting receiver, and accepted messages are with their sender, parked or received |
| Ipc.Reachable | kernel/src/ipc.rs:32-164 | hence it holds in every reachable state |
| Ipc.ExactlyOnce | kernel/src/ipc.rs:32-164 | each accepted message is on its way or received, exactly once |
| Ipc.ReceivedIsNew | kernel/src/ipc.rs:98-130 | a receive from a waiting sender, or after its yield, gets a message addressed to it that nobody received before |
| Ipc.StaleExactly | kernel/src/ipc.rs:109-114 | a receive reports a message nobody sent exactly when no sender waits and the task has blocked in a send since its flag was cleared |
| Ipc.CleanReceiver | kernel/src/ipc.rs:78-130 | a task that never blocks in a send never does so |
| Ipc.DeliveredExactly | kernel/src/ipc.rs:32-164 | over any run, what the tasks of an id got together with what is in flight to them is what was accepted for them together with what stale flags made up; so it is what was accepted if and only if no receive was stale |
| Ipc.CleanDelivery | kernel/src/ipc.rs:32-164 | tasks of an id that never wait in a send get exactly the messages accepted for them, each once, but for those in flight |
| Ipc.StaleExample | kernel/src/ipc.rs:67-71 | a run in which a task that blocked in a send receives a message that was never sent |
| IpcCalls.IpcKernel.SendWithCap | kernel/src/ipc.rs:32-75 | the error codes in order, and exactly for no capability, none of kind 1 with bit 0, no such task; the slot for oneself, and otherwise the send step on the task table |
| IpcCalls.IpcKernel.RecvWithCap | kernel/src/ipc.rs:78-119 | the error codes in order, and exactly for no capability and none of kind 1 with bit 1; the slot for oneself, and otherwise the receive step |
| IpcCalls.IpcKernel.ResumeRecv | kernel/src/ipc.rs:121-129 | the rest of a receive after its yield |
| IpcCalls.NoTimeout | kernel/src/ipc.rs:121-129 | in a reachable state a receive that blocked never times out |
| Caps.MoveConserves | kernel/src/cap.rs:103-109 | moving a capability to an empty slot of any table conserves the multiset of all capabilities |
| Caps.CapManager.AllocIn | kernel/src/cap.rs:18-26 | the first invalid slot takes the capability, or nothing changes |
| Caps.CapManager.Get | kernel/src/cap.rs:28-33 | a valid capability in range, and it was minted |
| Caps.CapManager.Validate | kernel/src/cap.rs:42-44 | true exactly for an index below 64 with a valid capability that misses none of the rights asked for |
| Caps.CapManager.Mint | kernel/src/cap.rs:69-76 | the whole grows by the capability, or nothing changes; only a success counts as minted |
| Caps.CapManager.Transfer | kernel/src/cap.rs:89-113 | the result in the order of the checks, each exactly when its check fails, and a task of user 0 is never denied; success conserves all capabilities, even to oneself, and respects users; failure changes nothing |
| Caps.CapManager.Duplicate | kernel/src/cap.rs:116-137 | success adds one copy and respects users; failure changes nothing |
| Caps.CapManager.FreeAll | kernel/src/cap.rs:140-144 | removes exactly that task's capabilities |
| Caps.Serve | kernel/src/cap.rs:69-144 | over any run every valid capability was minted as it is by a successful mint, and a task of a non-zero user passed capabilities only to its own user |
| EventRing.ProducerKeeps | kernel/src/event.rs:56-65 | every load and store of push keeps the invariant, with the slot undefined while it is written |
| EventRing.ConsumerKeeps | kernel/src/event.rs:68-77 | every load and store of pop keeps the invariant |
| EventRing.EveryInterleaving | kernel/src/event.rs:56-77 | for every interleaving popped events are a prefix of the accepted ones in order, and no slot is read while it is overwritten |
| EventRing.RefusalsAreRight | kernel/src/event.rs:60-72 | an event is dropped only when 511 were queued at the look, and pop is empty-handed only when the ring was empty at the look |
| EventRing.Ring.Push | kernel/src/event.rs:56-65 | run alone, the event joins the queue unless 511 wait |
| EventRing.Ring.Pop | kernel/src/event.rs:68-77 | run alone, the oldest event leaves |
| EventRing.Ring.HasEvents | kernel/src/event.rs:80-82 | true exactly when an event is queued |
| NvmeQueue.NewExactly | kernel/src/driver/nvme.rs:231-232 | the entry at the head carries the awaited phase exactly when the device has posted a completion not yet consumed |
| NvmeQueue.StepKeeps | kernel/src/driver/nvme.rs:210-250 | submission, fetch, completion in any order and poll keep the invariant |
| NvmeQueue.EveryRun | kernel/src/driver/nvme.rs:210-250 | over any run with fewer than 64 outstanding, after k completions the head is k modulo 64 and the phase flips each pass, and no stale entry is taken |
| NvmeQueue.OwnCompletion | kernel/src/driver/nvme.rs:233-242 | a completion with the last command's identifier is its own, unless a command 65 536 older is still open |
| NvmeQueue.IoQueue.IoSend | kernel/src/driver/nvme.rs:210-250 | the command goes to the tail slot with the next identifier |
| NvmeQueue.IoQueue.PollOnce | kernel/src/driver/nvme.rs:231-242 | one look consumes the next completion exactly when there is one |
| NvmeQueue.IoQueue.IoWait | kernel/src/driver/nvme.rs:225-246 | consumes one completion exactly when one has come by the last of a million looks, and reports success exactly when its status is zero and its identifier the one given |
| LongNames.FillSlot | kernel/src/fs.rs:506-530 | all 32 bytes of a slot |
| LongNames.WriteSlots | kernel/src/fs.rs:502-532 | the slots of a name in disk order, across sectors, and every other entry kept |
| LongNames.ReadChars | kernel/src/fat_driver.rs:619-639 | the thirteen characters of a slot |
| LongNames.LongName.Accept | kernel/src/fat_driver.rs:762-790 | the characters go to their place in the name; a bad number clears the accumulator |
| LongNames.ReadSlots | kernel/src/fat_driver.rs:744-813 | slots as written rebuild the upper-cased name, for every length from 1 to 255 |
| LongNames.Match | kernel/src/fat_driver.rs:834-842 | accepts exactly a name equal to the upper-cased user name |
| LongNames.WriteThenMatch | kernel/src/fat_driver.rs:739-842 | a name written and looked up through the accumulator is accepted exactly for its case variants |

## Left out

- Vm.Kernel.MapPage: asks that the flags carry no address bits and no large-page bit, as every caller does; TLB flushes and interrupt flags are not modelled.
- Vm.Kernel.IdentityMap2mb: covers ranges inside one 512 GB root entry, as the source assumes, under which no page table and no 1 GB page lies; the code would drop such a page table without giving back its frame, and skip 1 GB from wherever it meets a 1 GB page.
- FrameAllocator.PhysAllocator.PallocN: asks that the first run found does not straddle the end, since the code would then mark bits beyond the region; `RunIsOwned` and `StraddlesWhen` say exactly when that is.
- Hmac.HmacSha256: the RFC 2104 claim stops at 64 message bytes, because longer messages go through the two-part hash, which pads wrongly; PBKDF2 stays within that bound.
- Netman.Store.Save: the file system is one outcome, a refusal or a number of bytes taken; drawing salt and vector from the timer is a parameter.
- Netman.Store.Load: a record out of range stops the reading and leaves the old contents of the later slots, as in the code.
- FatVolume.Volume.ReadEntry: sectors have 512 bytes, transfers on the disk succeed, and the entry asked for lies inside one sector, because the code reads past its buffer otherwise; likewise for every entry that the other operations touch.
- FatVolume.Volume.AllocCluster: among twelve-bit entries asks for one that reads zero below cluster 341, the first that the code cannot read.
- FatVolume.Volume.FreeChain: asks that the entries it visits lie in the table and inside one sector; an entry past the table would read other sectors.
- FatVolume.Volume.WriteChain: starts from a cluster of the volume, the branch for a first cluster that is itself an end mark is not modelled; and asks for as many usable free clusters as the write wants, or a table that covers the whole scan, because `alloc_cluster` would otherwise hand out clusters that do not exist.
- FatRun.Carry: asks for the same, and that the file named is there; finding it in a directory, and its directory entry, are not modelled.
- Heap.KernelHeap.Kmalloc: sizes are unbounded numbers; what 64-bit sizes add is in `SizesFit`, and the sum of the heap size and the pages asked for must stay below 2^64 as well.
- Heap.KernelHeap.Grow: the pages that can be supplied are a number; the mapping addresses, which the code advances by pages instead of bytes, are not modelled.
- Heap.KernelHeap.Kfree: asks for null, a header marked free, or a live block; other pointers are outside the contract. Sizes are not cut to 32 bits, since the heap is limited to 256 MiB.
- Ipc.Reachable: each call up to its yield is one step and ids are unique; the parent notification at process exit, which writes the same flag, is not modelled, nor is broadcast.
- IpcCalls.IpcKernel.SendWithCap: a second message to oneself overwrites the first, as in the code, and is outside the delivery claims.
- NvmeQueue.OwnCompletion: identifiers wrap at 65 536, so a command open that long can be mistaken for the last one; the admin queue, which ignores its phase, is not modelled.
- The page copying and PRP lists of `nvme_rw`: would only add easy loops.
- `forget`, `connect` and the adapter scan of the network manager: simple table edits and hardware.
- `pfree_n`, which is a loop over `pfree`; cloning of upper-half entries; CR3.
- Searching a directory for free entries and the 8.3 name match: the long-name claims start at the slots.
- Directory growth and file sizes in directory entries on FAT, ext4, the scheduler's context switch, system calls, the network stack and the user interface.
