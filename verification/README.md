# Verified model of the Basic MAC core

Basic MAC is a LoRaWAN device stack in C. This project models the parts of it that carry most of the
reasoning and proves what they are for.

- **Firmware update over the air** (`Words`, `Gf2`, `Decoder`, `Fountain`, `Packed`, `Flash`, `Fuota`,
  `Session`, `Defrag`). A fountain code delivers a file as XORs of its blocks. The decoder of
  `services/fuota/fuota.c` eliminates over GF(2) in a triangular bit matrix on write-once flash and, once
  complete, unpacks in place through a one-page buffer. `Decoder` and `Fountain` hold the linear algebra,
  `Packed` the layout in flash, `Session` the decoder itself, and `Defrag` the decoder of
  `services/fuota/frag.py`. Whatever chunks arrive, in whatever order, the session completes at exactly the
  chunk at which the rank is full, and unpacks to exactly the source.
- **File system for EEPROM** (`Bitmap`, `Blocks`, `Space`, `Mount`, `Directory`, `Commit`, `Picofs`). Files are linked
  chains of 32-byte blocks; a metablock with two pointer slots is the commit switch; mounting rebuilds all
  state by a scan. `Mount` is about mounting arbitrary media, `Directory` about the map from identifiers to
  bytes that a medium stands for, `Commit` about the writes of a commit, and `Picofs` holds the file system.
  After every single media write of a save, mounting finds the old or the new directory.
- **LoRaWAN MAC** (`Ints`, `Downlink`, `Hops`, `Duty`): 32-bit frame counters from 16 bits and the handling of
  repeated frames, the pseudo-random hop list and the scan that uses it, and the duty-cycle accounts in
  16-bit seconds relative to a movable base.
- **AES** (`Cmac`, `AesOriginal`, `AesRounds`, `AesTables`, `AesIdeetron`): the message authentication code of RFC 4493 and
  counter mode in two implementations over an arbitrary block cipher, one of them a single loop with mode
  bits and a jump back, and the block cipher of FIPS 197 in two implementations, by tables of words and byte
  by byte, with the tables of the source checked entry by entry.
- **Scheduling** (`Jobs`, `Lwmux`): the job queue with wrapped times as a linked list, and the uplink
  multiplexer as a state machine whose assertions cannot fail.

Code that changes state in place is modelled by classes and methods on arrays, each proved against a
specification function; lemmas about those functions then say what a whole run does. `dafny verify
dfyconfig.toml` checks everything.

## Where the code falls short of what one might expect

- `Duty.StalePick`, `Duty.ReconfigureAndSend`: a channel that is picked for a transmission and moved to another
  band before it starts is used without a check of that band; exactly when this breaks the duty cycle.
- `Duty.SecToTicksExact`: `lmic/oslmic.h` admits up to 64516 ticks per second, but 16-bit seconds overflow
  `sec2osticks` above 32768.
- `Duty.BlockedInAS923`: in a region without limits a move of the base can block the band for hours that nobody claimed;
  `Duty.RebasedExact`: elsewhere it can add a second.
- `Hops.FairIff`, `Hops.ScanFindsIff`: the 8-bit hop reference makes the 96 channels of CN470 come unevenly, and the scan can miss
  the only enabled channel.
- `Jobs.DueIff`: an extended job whose deadline passed more than 2^31 ticks ago is taken to be still to come.
- `Downlink.OnceIff`: the last 32-bit counter is not protected against repetition, all others are. `engineUpdate` resets the
  session before (`lmic/lmic.c`, line 3091), but only when an uplink is due, and not for the application counter.
- `AesOriginal.CtrAgreeIff`: the two counter modes agree exactly as long as the last byte of the counter
  block does not overflow. The comment in `aes/aes-common.c` describes its own behaviour, one byte.
- `AesOriginal.OsAesMic`, `AesOriginal.OsAesCtrMode`: messages longer than 32767 bytes are not processed.

## Model

| member | source | states |
|---|---|---|
| Fountain.CompleteUnpacksToSource | services/fuota/fuota.c:245-327 | For every source and every sequence of chunks that carry XORs of its blocks, in any order and with any repetition: once all pivots are filled, unpacking yields exactly the source. |
| Fountain.InnovativeIffOutsideSpan | services/fuota/fuota.c:303-324 | The next chunk changes the store exactly when its check bits are outside the GF(2) span of those processed before, and then it fills exactly one empty pivot. No useful chunk is thrown away. |
| Fountain.FilledIsRank | services/fuota/fuota.c:162-180 | The number of filled rows is the rank of all check-bit vectors processed so far. |
| Fountain.CompleteIffSpansAll | services/fuota/fuota.c:320-323 | The session is complete exactly when the rank reaches the number of chunks, equivalently when every vector is in the span. |
| Fountain.PivotIffTopInSpan | services/fuota/fuota.c:303-318 | Pivot i is filled exactly when the span of the processed vectors holds one whose top bit is i. |
| Fountain.ArrivalOrderIrrelevant | services/fuota/fuota.c:285-327 | Sessions that processed the same set of check-bit vectors, in whatever order and multiplicity, have filled the same pivots and are both complete or both not. |
| Fountain.IncompleteIsAmbiguous | services/fuota/fuota.c:320-326 | Before completion another source explains every chunk received so far, so that no decoder could have finished earlier. |
| Fountain.DecodersAgree | services/fuota/frag.py:83-111 | The decoder of fuota.c, which goes on reducing below the first empty pivot, and that of frag.py, which stops there, fill the same pivots, complete together and unpack to the same blocks on every sequence of chunks, even inconsistent ones. |
| Fountain.RunCarries | services/fuota/fuota.c:303-318 | Every row ever stored has top bit i and carries exactly the XOR of the source blocks that its bits select. |
| Fountain.SpanIsKernel | services/fuota/fuota.c:303-313 | A vector is in the span of the processed ones exactly when elimination reduces it to zero. |
| Fountain.UnpackIsImages | services/fuota/fuota.c:253-269 | Forward substitution in ascending order gives each block the data that elimination leaves of that block alone. |
| Decoder.ReduceLinear | services/fuota/fuota.c:303-313 | Elimination by the stored rows is linear: reducing an XOR of two rows gives the XOR of the reduced rows. |
| Decoder.ReduceInsert | services/fuota/fuota.c:314-318 | Storing a row at an empty pivot changes the elimination map by one rank-one update. |
| Decoder.ReduceBits | services/fuota/fuota.c:304-313 | Elimination clears the bits of all stored pivots below its start and leaves the bits above alone. |
| Decoder.StepUpdates | services/fuota/fuota.c:303-318 | One call of fuota_process keeps every stored row at its top bit and updates the elimination map by the residue of the chunk. |
| Decoder.PyStepUpdates | services/fuota/frag.py:87-95 | The same for one call of DefragSession.process. |
| Packed.MOffsetNext | services/fuota/fuota.c:130-140 | Each row of the triangular matrix starts where the one before it ends. |
| Packed.MOffsetMonotone | services/fuota/fuota.c:130-140 | Distinct rows do not overlap. |
| Packed.MOffsetFits | services/fuota/fuota.c:133-140 | For chunk counts of up to 16 bits nothing in m_offset, nor the byte size of the matrix, overflows 32 bits. |
| Packed.LastWord | services/fuota/fuota.c:162-169 | The word m_complete and m_count look at, the one before row i + 1, differs from erased flash exactly when row i is stored. |
| Packed.StoredIffTopBit | services/fuota/fuota.c:306-307 | For a flash image the decoder maintains, row i is stored exactly when its bit i reads as set. |
| Packed.ErasedIsEmpty | services/fuota/fuota.c:226-243 | Erased matrix and block areas hold the empty store. |
| Packed.XorRowBits | services/fuota/fuota.c:308-309 | XORing the packed words of stored row i into the check bits XORs the bit vectors, for flash that erases to ones and to zeros, and leaves the bits past the chunk count alone. |
| Packed.StoreRow | services/fuota/fuota.c:314-318 | Programming the words of row i and of block i of an empty pivot stores exactly that row and keeps every other row and the packed form. |
| Packed.IsSetTestsPlain | services/fuota/fuota.c:122-127 | M_ISSET tests the stored bit, whatever the erased value of the flash is. |
| Words.TestBit | services/fuota/fuota.c:119-127 | A word has a bit in common with the mask of bit k exactly if its bit k is set. |
| Words.RotateMask | services/fuota/fuota.c:154-159 | The rotation in m_prev moves the mask to the bit below and wraps to bit 31. |
| Words.MaskValues | services/fuota/fuota.c:203-206 | The mask of bit k has the value 2^k, and the mask minus one selects the k low bits. |
| Flash.FlashWrite | services/fuota/fuota.c:52-80 | Programs the words, their page erased first if so asked, so that the rest of it reads as erased; words that are programmed without erasing must be in the erased state; nothing else changes. |
| Flash.XorF2R | services/fuota/fuota.c:96-100 | XORs a stretch of flash into RAM. |
| Flash.XorMF2R | services/fuota/fuota.c:102-110 | XORs matrix words into the check bits in their plain form. |
| Flash.MatrixWrite | services/fuota/fuota.c:276-283 | Programs a matrix row in the form erased flash requires, on erased words only. |
| Flash.BwState.BufferedWrite | services/fuota/fuota.c:57-73 | Appends the words to what has been written, for any number of pages they fill; flash at or above the write position still holds the raw words. |
| Flash.BwState.Flush | services/fuota/fuota.c:53-56 | After the flush the flash holds everything written. |
| Flash.XorBF2R | services/fuota/fuota.c:86-94 | Every word read is the decoded one, whether it is still in the page buffer or already in flash. |
| Fuota.GCheckbits | services/fuota/fuota.c:198-207 | Computes the check-bit vector of the chunk, word i from the hash of chunk number times word count plus i in 32-bit arithmetic, and clears the bits past the chunk count in the last word; that these are the bits of the Python generator is `Defrag.GeneratorsAgree`. |
| Fuota.MRmb | services/fuota/fuota.c:143-151 | Finds the highest bit set in the packed vector, or reports that there is none. |
| Fuota.MPrev | services/fuota/fuota.c:154-159 | Moves word index and mask to the bit below. |
| Fuota.GenChunk | services/fuota/fuota.c:379-391 | The chunk is the XOR of the source blocks that its check bits select. |
| Session.FuotaSession.constructor | services/fuota/fuota.c:226-243 | A session on erased flash starts with nothing received. |
| Session.FuotaSession.Process | services/fuota/fuota.c:285-327 | A session that wants more takes in the chunk as the elimination step does and reports COMPLETE exactly when the received check bits have full rank; flash words that change were erased before; in any other state nothing changes and the state is reported. |
| Session.FuotaSession.UnpackBlocks | services/fuota/fuota.c:245-274 | Succeeds exactly on complete sessions whose unpacking was not interrupted, and then leaves in the block area, in place, the decoded blocks, which are the source of the chunks if they have one; a second call changes nothing. |
| Session.FuotaSession.DecodeAll | services/fuota/fuota.c:252-270 | Decoding in place through a one-page buffer, with pages erased and rewritten while later blocks are still to be read, equals decoding out of place. |
| Session.FuotaSession.DecodeNext | services/fuota/fuota.c:257-268 | One block: reads its raw words, decodes them against the blocks decoded before, appends them; the raw words above the write position are untouched. |
| Session.FuotaSession.Eliminate | services/fuota/fuota.c:303-313 | The loop over packed words computes the residue of the chunk under the store that the flash holds. |
| Session.FuotaSession.Absorb | services/fuota/fuota.c:295-318 | Takes the flash from one store to the next exactly as the abstract step does. |
| Session.FuotaSession.MCount | services/fuota/fuota.c:171-180 | Counts the rank of what was received. |
| Session.FuotaSession.MComplete | services/fuota/fuota.c:161-169 | Reports whether every pivot is filled. |
| Defrag.Chunk | services/fuota/frag.py:49-56 | The Python generator folds the same blocks, in ascending order, as the C generator does in descending order. |
| Defrag.GeneratorsAgree | services/fuota/frag.py:32-35 | For every hash, chunk count and chunk number the generator of frag.py, which masks the argument of the hash, packs the words to bytes, reads these as bits and cuts them to the chunk count, makes the check bits that g_checkbits of fuota.c leaves. |
| Defrag.CarouselChunk | services/fuota/frag.py:49-56 | A chunk of the Python carousel is what fuota_gen_chunk makes of the same blocks. |
| Defrag.CarouselDecodes | services/fuota/frag.py:49-56 | Across the two implementations: whatever chunks of a Python carousel arrive, in whatever order, once the session of fuota.c is complete it unpacks to the data of the carousel, and so does the session of frag.py. |
| Defrag.DefragSession.constructor | services/fuota/frag.py:75-81 | A new session has received nothing. |
| Defrag.DefragSession.Process | services/fuota/frag.py:83-95 | Keeps the chunk, and says so, exactly when its check bits are outside the span of those received. |
| Defrag.DefragSession.UnpackRows | services/fuota/frag.py:100-111 | Fails exactly on incomplete sessions; otherwise the blocks, also on a second call, are those the decoder of fuota.c unpacks from the same chunks. |
| Defrag.KeptIffOutsideSpan | services/fuota/frag.py:87-95 | The Python decoder throws no useful chunk away. |
| Bitmap.UpdateViews | services/eefs/picofs.c:57-67 | Setting and clearing a bit of the map adds and removes exactly that block. |
| Blocks.MetaEndsIn254 | services/eefs/picofs.c:36-49 | A block with the metablock magic ends in byte 254; a block with any other link is no metablock. |
| Blocks.PtrWritten | services/eefs/picofs.c:263-270 | Overwriting pointer j of a metablock changes that pointer only. |
| Blocks.ChainFinds | services/eefs/picofs.c:71-104 | The walk finds every complete chain that keeps clear of allocated blocks. |
| Blocks.ChainSound | services/eefs/picofs.c:71-104 | Whatever the walk finds on any medium is a complete chain, in range, without a repetition, clear of allocated blocks. |
| Blocks.LinkedBlocks | services/eefs/picofs.c:43-48 | No block of a complete chain is a metablock. |
| Mount.MountRecovers | services/eefs/picofs.c:124-150 | Mounting a recoverable medium selects its files, allocates exactly the metablocks and chains in use, and writes nothing but the pointers it leaves unselected. |
| Mount.MountEstablishesRep | services/eefs/picofs.c:124-150 | On any medium whatever, mounting leaves live chains that are in range, acyclic, pairwise disjoint and free of metablocks, one live pointer in each live metablock, and a bitmap equal to the live metablocks and their chains. |
| Mount.MountIdempotent | services/eefs/picofs.c:124-150 | Mounting again changes nothing, whatever the medium was before. |
| Mount.MountMissesNone | services/eefs/picofs.c:130-149 | On any medium: mounting leaves no metablock unmounted of which either pointer leads to a complete chain of blocks not in use with the right checksum, whatever the other pointer says. |
| Mount.MountResumes | services/eefs/picofs.c:124-150 | A mount that is cut off after any number of blocks, on any medium whatever, has changed nothing for the next mount. |
| Mount.RemountIsIdentity | services/eefs/picofs.c:124-150 | Mounting a consistent medium rebuilds exactly the state it belongs to and writes nothing. |
| Mount.ScanRecovers | services/eefs/picofs.c:130-149 | What the scan has found after i blocks, for every i. |
| Directory.CoherentRecovers | services/eefs/picofs.c:124-150 | Mounting a coherent medium, with or without a dangling pointer, yields the directory it stands for. |
| Directory.RepairedRecovers | services/eefs/picofs.c:136-141 | So does every medium on which only some of the dangling pointers have been emptied. |
| Directory.SameFilesCoherent | services/eefs/picofs.c:124-150 | Media that agree on the live metablocks and their chains, and whose stale metablocks are empty, stand for the same directory. |
| Commit.FreeWrittenFiles | services/eefs/picofs.c:274-314 | Writing chain links or empty metablocks to free blocks changes no file. |
| Commit.CrcStep | services/eefs/picofs.c:263-265 | Writing the checksum of the empty slot changes no file. |
| Commit.PtrStepOld | services/eefs/picofs.c:266 | With the old chain in slot 0, writing the pointer of slot 1 leaves the old directory in force although both pointers are live. |
| Commit.NewStep | services/eefs/picofs.c:266-270 | With the new chain in slot 0, or the other pointer emptied, the new directory is in force. |
| Commit.DoneRep | services/eefs/picofs.c:263-270 | After the three writes the representation invariant holds for the new files. |
| Commit.UsedSwap | services/eefs/picofs.c:263-270 | The blocks in use afterwards are those before, with the new chain instead of the old one. |
| Picofs.PublishRecovers | services/eefs/picofs.c:263-272 | Whatever prefix of the writes of meta_update reaches the medium, mounting finds the old or the new directory, and after the last one the new. |
| Picofs.BlankRecovers | services/eefs/picofs.c:124-150 | A medium without metablocks is an empty file system. |
| Picofs.NoChange | services/eefs/picofs.c:350-354 | A save of what the file already holds leaves every file as it is. |
| Picofs.RemovedDir | services/eefs/picofs.c:220-228 | Erasing the magic of a live metablock removes exactly that file. |
| Picofs.MemCmpZero | services/eefs/picofs.c:322-330 | The comparison is zero exactly for equal bytes. |
| Picofs.BlockParts | services/eefs/picofs.c:283-305 | A data block as chain_write makes it carries its payload and link and is never taken for a metablock. |
| Picofs.Pfs.WriteWord | services/eefs/picofs.c:53-55 | One media write of a word. |
| Picofs.Pfs.constructor | services/eefs/picofs.c:124-150 | pfs_init establishes the invariant on any medium, and on one that recovers to a directory it holds exactly that directory. After each of its own writes the next mount finds the same. |
| Picofs.Pfs.MountBlock | services/eefs/picofs.c:130-149 | One round of the scan. |
| Picofs.Pfs.VChain | services/eefs/picofs.c:106-122 | Accepts exactly complete chains clear of allocated blocks with the right checksum, and allocates those. |
| Picofs.Pfs.BlockAlloc | services/eefs/picofs.c:230-242 | Takes the next free block in circular order; fails exactly if there is none besides the block after which it starts, which it does not look at unless it is the only one. |
| Picofs.Pfs.ChainClear | services/eefs/picofs.c:214-218 | Frees exactly the blocks of the chain. |
| Picofs.Pfs.Find | services/eefs/picofs.c:152-205 | Finds the first live metablock with this identifier, or there is none. |
| Picofs.Pfs.MetaCreate | services/eefs/picofs.c:244-261 | Writes one free block, with both pointers empty, or nothing. |
| Picofs.Pfs.MetaUpdate | services/eefs/picofs.c:263-272 | Issues the writes of checksum, pointer and, if there was a live one, old pointer, in that order, and frees the old chain. |
| Picofs.Pfs.ChainWrite | services/eefs/picofs.c:274-314 | Stores the data, padded, as a complete chain on free blocks with its checksum; every intermediate medium differs on free blocks only, also when space runs out. It succeeds exactly if enough blocks are free, one for every 31 bytes begun, and the first search finds one of them. |
| Picofs.Pfs.WriteBlockOf | services/eefs/picofs.c:280-306 | One round of the loop of chain_write: it ends without room, completes the chain or goes on in a block that was free. |
| Picofs.Pfs.Publish | services/eefs/picofs.c:366-367 | Makes the stored chain the content of the metablock, keeps all other files, and at every write leaves a medium that recovers to the old or the new directory. |
| Picofs.Pfs.ChainCmp | services/eefs/picofs.c:332-344 | Zero exactly if the file has this length and these bytes. |
| Picofs.Pfs.Save | services/eefs/picofs.c:346-369 | Crash atomicity: after every single media write mounting yields the old directory or the new one. Afterwards the file holds the data, every other file is unchanged, and a failed save changes no file; saving what the file already holds writes nothing; the invariant is kept, also on media that were not formatted. It succeeds exactly if the file already holds the data or there is room: a free block other than the one the search starts at, and in all as many as the data needs, and one more for a new file. |
| Picofs.Pfs.Prepare | services/eefs/picofs.c:346-357 | The first half of a save: finds the metablock or creates it; tells whether the file holds the data already, and what room the rest needs. |
| Picofs.HeldIff | services/eefs/picofs.c:350-354 | On a formatted medium a live metablock has the identifier exactly if the directory does, and the first such file holds the data exactly if the directory says so. |
| Space.RoomAfter | services/eefs/picofs.c:355-359 | After the metablock of a new file was taken there is room for the rest exactly if there was room for one block more before. |
| Space.RoomUsedUp | services/eefs/picofs.c:291-295 | When a chain finds no further block, there never was room for more blocks than it has. |
| Space.RoomTaken | services/eefs/picofs.c:277-306 | A chain of different blocks that were free shows that there was room for as many. |
| Picofs.Pfs.RmFh | services/eefs/picofs.c:220-228 | One write takes exactly this file away; handles that are not live are ignored. |
| Picofs.Pfs.ReadFh | services/eefs/picofs.c:377-403 | Returns the length of the file and copies its start into the buffer. |
| Picofs.Pfs.Read | services/eefs/picofs.c:405-411 | After a save returns exactly the length and bytes saved; -1 exactly for files that are not there. |
| Picofs.Pfs.Remount | services/eefs/picofs.c:124-150 | Mounting again finds exactly the allocation map and files of the running instance. |
| Ints.S4Fits | lmic/oslmic.h:195-196 | A value in the range of 32 signed bits is not changed, and conversion only adds multiples of 2^32. |
| Ints.SignedLength | aes/aes-original.c:254 | A 16-bit length passes the signed test exactly from 1 to 32767, and until it is used up while it counts down by 16. |
| Downlink.ReconstructIff | lmic/lmic.c:1636 | The sender's 32-bit counter is recovered exactly if it lies within 2^15 of the expected one, modulo 2^32 (section 4.3.1.5 of LoRaWAN 1.0.2). |
| Downlink.OutcomeIff | lmic/lmic.c:1641-1654 | With an ideal integrity code: exactly which frames are delivered, always with their true counter, and which are acknowledged once more. |
| Downlink.NewFrameAccepted | lmic/lmic.c:1636-1654 | A well-formed frame at or less than 2^15 above the expected counter is never refused. |
| Downlink.DecodeMoves | lmic/lmic.c:1629-1654 | A delivered frame moves its expected counter to one past its own; no other frame moves any. |
| Downlink.CountersIncrease | lmic/lmic.c:1641-1654 | Over every run of frames the delivered ones have strictly increasing counters, unless the last 32-bit counter is used. |
| Downlink.DeliveredOnce | lmic/lmic.c:1641-1680 | Over every run with loss, repetition and reordering no frame is delivered twice, as long as none is delivered under the last 32-bit counter. |
| Downlink.OnceIff | lmic/lmic.c:1641-1680 | The exact condition, for any set of frames that may arrive: no run of them, in any order and with any repetition, delivers a frame twice exactly if no run of them delivers a frame whose sender gave it the counter 0xFFFFFFFF. |
| Downlink.OnceWithoutLast | lmic/lmic.c:1641-1680 | In particular, no frame is delivered twice in a run in which no frame with that counter arrives. |
| Downlink.WrapDeliversTwice | lmic/lmic.c:1653 | In whatever state a frame is delivered under the counter 0xFFFFFFFF, the expected counter wraps to zero and the same frame is delivered again at once. |
| Downlink.RepeatedIsLast | lmic/lmic.c:1645-1650 | A frame acknowledged again has the counter of the one delivered last; if the sender uses a counter for one frame only, it is that frame, and was confirmed. |
| Downlink.RepeatedFrame | lmic/lmic.c:1645-1650 | In a fresh session there is such an earlier delivery, with none in between. |
| Downlink.Lmic.DecodeFrame | lmic/lmic.c:1587-1680 | The method on the session state follows that decision: result, port, payload and pending acknowledgement. |
| Downlink.BuiltFields | lmic/lmic.c:1603-1627 | Every field of a frame that is laid out byte by byte, lowest byte of address and counter first, is read back: type, address, low half of the counter, length of the options, port and payload. |
| Downlink.BuiltDelivered | lmic/lmic.c:1587-1680 | For every frame laid out for the device, with any counter, up to 15 bytes of options, and port and payload or none: exactly which are delivered, with exactly that port and payload, after which the counter expected is the one after the counter of the sender; which are acknowledged again; all others leave the state as it is. |
| Hops.PrngNext | lmic/lmic.c:1210-1220 | Yields the bytes of the buffer one after the other and encrypts it when they are used up: the index moves on by one, and the other bytes are kept or are the encrypted ones. |
| Hops.Perm | lmic/lmic.c:1223-1230 | The cells hold the order that the random bytes draw, two bytes to a draw, which is a permutation of the range whatever they are. |
| Hops.OrderInjective | lmic/lmic.c:1223-1230 | Different draws make different orders, so that each order comes from one series of draws. |
| Hops.GenerateHopList | lmic/lmic.c:1233-1251 | For any device and any cipher the list names every channel once, and each run of nch/8 entries visits every 8-channel block once, in the same order, from block 0; it is the list made of the orders that the random bytes draw for the blocks and for each column. |
| Hops.HopListInjective | lmic/lmic.c:1233-1251 | Different draws, of the blocks or of any column, make different hop lists. |
| Hops.FillColumn | lmic/lmic.c:1247-1249 | Writes one column of the list and no other entry. |
| Hops.FixedPlan.constructor | lmic/lmic.c:1233-1251 | A plan with a generated list is in good order. |
| Hops.FixedPlan.NextChannel | lmic/lmic.c:1457-1479 | Selects the first enabled channel that the 8-bit reference reaches, at either kind of data rate; if none is enabled the channel is kept. If the number of channels divides 256 and one is enabled, an enabled one is selected: one of the 500 kHz channels at the data rate of these, and one of the others otherwise. |
| Hops.SelectedEnabled | lmic/lmic.c:1470-1476 | The channel selected is an enabled one of those that are scanned, or the one before. |
| Hops.ScanFindsIff | lmic/lmic.c:1470-1476 | The scan finds an enabled channel whenever there is one, from every start, exactly if the length of the list divides 256; of 96 channels it can miss the only one. |
| Hops.SelectedIsHop | lmic/lmic.c:1470-1476 | Successive scans make successive hops. |
| Hops.HopsDistinct | lmic/lmic.c:1470-1476 | When the list length divides 256, n hops use n different enabled channels, up to their number. |
| Hops.Fair | lmic/lmic.c:1470-1476 | For every list of different channels, hop list or 500 kHz channels, whose length divides 256, every channel map with m enabled channels and every start: any m successive hops use each of them exactly once. |
| Hops.UnfairUnlessDividing | lmic/lmic.c:1471 | For every other length, such as the 96 channels of CN470, with all channels enabled there is a start from which a channel comes twice within one round: the 8-bit reference wraps in the middle of the list. |
| Hops.FairIff | lmic/lmic.c:1470-1476 | For every list of different channels: successive hops are fair for every channel map and every start exactly if the list length divides 256. |
| Hops.NoWrap | lmic/lmic.c:1471 | The wrap of the reference does not disturb the order of a list whose length divides 256. |
| Duty.SecToTicksExact | lmic/oslmic.h:204 | 16-bit seconds convert to ticks without loss exactly up to 32768 ticks per second, although up to 64516 are admitted. |
| Duty.CeilBounds | lmic/oslmic.h:213 | Conversion to seconds rounds up, by less than a second, and not at all past zero. |
| Duty.Time2XTimeExact | lmic/oslmic.c:77-79 | Times within 2^31 ticks of the context are restored exactly from 32 bits. |
| Duty.Rebased | lmic/lmic.c:414-417 | Re-basing makes no availability earlier, and one that is still to come later by less than a second. |
| Duty.RebasedExact | lmic/lmic.c:414-417 | Moving the base keeps an availability that is still to come exactly if the base moves by whole seconds; otherwise it is rounded up again, and a claim can come to block for more than a second too long. |
| Duty.DutyCycle.constructor | lmic/lmic.c:903-909 | After a reset every band and channel is available, no channel is set up, and nothing was sent. |
| Duty.DutyCycle.AdjAvail | lmic/lmic.c:414-417 | Re-bases one cell. |
| Duty.DutyCycle.Rebase | lmic/lmic.c:427-441 | Moving the base makes no band, channel or global availability earlier, and every channel and the bands of regions with limits at most a second late. |
| Duty.DutyCycle.SetAvail | lmic/lmic.c:419-444 | The availability is not before the time asked for and less than a second after; no other availability gets earlier, base moved or not. |
| Duty.DutyCycle.DisableChannel | lmic/lmic.c:847-858 | Clears the channel with its frequency and data rates; the map is never left empty; the exact effect on a channel that was picked. |
| Duty.DutyCycle.SetupChannel | lmic/lmic.c:860-901 | Succeeds exactly for channels and frequencies the region admits; then the channel is available at once, with the given data rates or else all of 125 kHz, and nothing else has moved; the exact effect on a channel that was picked. |
| Duty.DutyCycle.UpdateTx | lmic/lmic.c:967-983 | Books the transmission: band and channel are not available before airtime times their factor has passed since its start, and are less than a second later; nothing else gets earlier. Only if the base moves after the band was booked is the band later than that: by less than two seconds if the band is adjusted, and by more than nine hours if it is not. |
| Duty.HonestSend | lmic/lmic.c:967-983 | Nothing is blocked without a claim, and this is kept by every transmission: each channel, and each band that is adjusted or whose base has not moved, is blocked no longer than a claim that was made on it, but for one second of rounding and one more for each of at most two moves of the base. |
| Duty.UpToMoved | lmic/lmic.c:419-442 | When the base moves, at most a second is added to what a claim blocks, and nothing is blocked any more for a claim that has seen the base move twice. |
| Duty.BlockedInAS923 | lmic/lmic.c:434-436 | In a region without limits the bands are not adjusted when the base moves: a transmission of one second in the nine seconds before the first 65535 seconds are over blocks its band for more than nine hours. |
| Duty.DutyCycle.SelectRandomChnl | lmic/lmic.c:993-1011 | Draws a candidate, and not the previous channel if there are several. |
| Duty.DutyCycle.SyncDatarate | lmic/lmic.c:938-965 | Picks the enabled data rate closest to the current one, the slower of two. |
| Duty.DutyCycle.Candidates | lmic/lmic.c:1025-1060 | The candidate map holds exactly the channels that serve the data rate and are available, and the time found is their earliest. |
| Duty.DutyCycle.Search | lmic/lmic.c:1024-1069 | The scan succeeds at the first or second data rate. |
| Duty.DutyCycle.Probe | lmic/lmic.c:1071-1100 | Finds a clear channel exactly if some candidate is clear. |
| Duty.DutyCycle.NextTx | lmic/lmic.c:1017-1106 | Goes ahead exactly if some channel may be used now, on such a channel; otherwise returns the time when the first channel comes available, or, if there are some but all are busy, the time 100 ms from now. |
| Duty.DutyCycle.Engine | lmic/lmic.c:2985-3130 | Sends exactly if a channel may be used at the data rate then in force, or the time found before has come, and then on that channel; a call that waits changes no account and leaves the channel to be picked if it was. While every transmission was checked, any two in a band keep the distance airtime times factor. |
| Duty.DutyCycle.Send | lmic/lmic.c:3116-3128 | The transmission starts after the ramp-up and is booked. |
| Duty.LedgerSend | lmic/lmic.c:976-983 | A checked transmission keeps clear of all earlier ones, and later ones will keep clear of it. |
| Duty.LedgerSetup | lmic/lmic.c:895-899 | Setting up a channel anew cannot shorten what its band has to wait. |
| Duty.EndTimes | lmic/lmic.c:977-983 | The end computed in 32 bits is the true end of what the transmission claims. |
| Duty.Reconfigure | lmic/lmic.c:847-901 | Setting up or disabling a channel: one that had been checked when it was picked still counts as checked exactly if the band of its frequency, the new one if it was moved, was available then. |
| Duty.DutyCycle.Pick | lmic/lmic.c:3044-3064 | If a channel is to be picked, the time found has come exactly if some channel may be used, and then one that may has been picked and checked; otherwise the channel is left as it was. |
| Duty.Attend | lmic/lmic.c:2985-3130 | An event of the engine: it transmits exactly if it may, from the ramp-up on and for the airtime of its frame, and then no channel of that band is ready before the claim ends; waiting leaves channels and accounts as they were. |
| Duty.Perform | lmic/lmic.c:847-1106 | Every event does what Step says of it: only the engine transmits, exactly when it may; setting up and disabling give the new channel map and leave all other channels as they were. The guard that the next transmission is checked is kept, unless the event sets up or disables the channel that is picked for it. |
| Duty.TraceSent | lmic/lmic.c:1045-1048 | The transmissions of any run are, in order and without gaps, those that its engine events led to, each starting after the ramp-up of its event and lasting as long as its frame. |
| Duty.WaitsForClaims | lmic/lmic.c:1045-1064 | In any run, when the engine waits for a channel, each channel at its data rate is blocked by a transmission that claims it or its band, for less than three seconds longer than it does. |
| Duty.NowHonest | lmic/lmic.c:977-1012 | Every state of a run in which duty cycles are observed is such that nothing is blocked without a claim. |
| Duty.Run | lmic/lmic.c:847-1106 | Duty cycle over whole runs: every event of any sequence of channel set-ups and removals, calls of the engine and of nextTx is carried out in order until the lifetime ends or no enabled channel has a data rate, but for those that would move a channel that is picked and not yet used; what was sent is what the engine events led to; any two transmissions in a band start at least airtime times factor apart, and likewise on a channel since its set-up; and at every moment nothing is blocked without a claim. |
| Duty.AirTimeBound | lmic/lmic.c:967-983 | Then the air time of all transmissions that start in a band within any window, times the factor of the band, exceeds the window by no more than the claim of a single transmission. |
| Duty.WindowBound | lmic/lmic.c:967-983 | The claims that lie wholly within a window do not exceed it. |
| Duty.ReconfigureAndSend | lmic/lmic.c:3045-3125 | Where the guarantee ends: if a picked channel is set up or disabled before it is used, the transmission keeps its distance exactly if no earlier one in the band it now falls into lasts beyond its start; it is enough that this band is then available. |
| Duty.StalePick | lmic/lmic.c:3045-3051 | A run in which it does not: the picked channel is moved to a band that is in use. |
| Jobs.PlaceSplits | lmic/oslmic.c:158-165 | The place of a new job separates the jobs that are not later from those that are. |
| Jobs.ComparedIff | lmic/oslmic.c:160 | Comparing times by their wrapped difference is right exactly within 2^31 ticks. |
| Jobs.Os.constructor | lmic/oslmic.c:12-24 | The empty schedule, with no exact jobs. |
| Jobs.Os.UnlinkJob | lmic/oslmic.c:82-93 | Relinks the list so that exactly this job is gone; reports whether it was there; the count of exact jobs stays right. |
| Jobs.Os.ClearCallback | lmic/oslmic.c:127-136 | As unlinking. |
| Jobs.Os.FindPlace | lmic/oslmic.c:159-165 | Finds the first later job and its predecessor. |
| Jobs.Os.SetTimedCallbackEx | lmic/oslmic.c:139-174 | Whether or not the job was queued, it is afterwards queued once, behind all jobs that are not later; the list stays acyclic, duplicate-free and sorted, and the count of exact jobs right. |
| Jobs.Os.RunStep | lmic/oslmic.c:177-232 | Takes the earliest job if it is due, and asks for an exact wake-up exactly if some queued job needs one. |
| Jobs.Os.ExtendedJobCb | lmic/oslmic.c:100-111 | Schedules the next stage, or the final callback at the true deadline; it is due at once exactly as `Jobs.DueIff` says. |
| Jobs.Os.SetExtendedTimedCallback | lmic/oslmic.c:114-124 | Schedules the first stage for a deadline any distance ahead, and the final callback only for deadlines less than 2^30 ticks ahead. For deadlines up to 2^31 ticks ago the 32-bit time that is scheduled is as far away as the true one, and the job is due at once exactly if the deadline has passed. |
| Jobs.DueIff | lmic/oslmic.c:100-111 | A job counts as due at once exactly if its deadline has passed, unless it passed so long ago that the distance modulo 2^32 exceeds 2^31 ticks; one that passed 2^31 + 1 ticks ago is taken to be still to come. |
| Jobs.ExtendedReaches | lmic/oslmic.c:100-124 | An extended job is looked at a bounded number of times and then scheduled for its true deadline, never for a later time. |
| Jobs.StageWithin | lmic/oslmic.c:95-109 | Every stage is less than 2^30 ticks ahead, and not before now unless the deadline has passed; the wrapped 32-bit distance to it is the true one. |
| Lwmux.Find | services/lwmux/lwmux.c:324-334 | The first request of a job. |
| Lwmux.WithoutQueue | services/lwmux/lwmux.c:324-334 | Withdrawing a request keeps the queue in order and leaves none of that job. |
| Lwmux.InsertQueue | services/lwmux/lwmux.c:342-350 | Adding a request keeps the queue in descending priority, first come first served among equals, one request a job. |
| Lwmux.Mux.constructor | services/lwmux/lwmux.c:18-57 | The zeroed state: shut down, nothing queued, nothing pending. |
| Lwmux.Mux.ClearSend | services/lwmux/lwmux.c:324-334 | Removes the request of the job and says whether there was one. |
| Lwmux.Mux.RequestSend | services/lwmux/lwmux.c:336-356 | Queues the request behind those of at least its priority, in place of an earlier one, and schedules an opportunity exactly if the session is up and the radio free. |
| Lwmux.Mux.SetPriority | services/lwmux/lwmux.c:385-393 | Changes the threshold and schedules an opportunity exactly if the session is up and the radio free. |
| Lwmux.Mux.RunTxNext | services/lwmux/lwmux.c:219-222 | The same when the scheduler runs it. |
| Lwmux.Mux.RunTxOpportunity | services/lwmux/lwmux.c:187-216 | Its assertion holds whenever the scheduler runs it; sends the first eligible job that has something to send, drops the eligible ones before it, and touches no other, whether or not one is sent. |
| Lwmux.Mux.RunJoin | services/lwmux/lwmux.c:245-250 | Its assertion holds whenever the scheduler runs it. |
| Lwmux.Mux.ModeSwitch | services/lwmux/lwmux.c:278-318 | The last mode asked for is taken on, after a shutdown if one was asked for in between, even if that was revoked. |
| Lwmux.Mux.SetMode | services/lwmux/lwmux.c:362-383 | Takes effect at once unless the radio is busy; a join is aborted by a shutdown; a shutdown asked for is remembered. |
| Lwmux.Mux.TxComplete | services/lwmux/lwmux.c:225-239 | Carries out a remembered mode change, or schedules the next opportunity. |
| Lwmux.Mux.OnTxComplete | services/lwmux/lwmux.c:424-455 | Calls the completion function of the job that was sent exactly once, if it named one. |
| Lwmux.Mux.OnJoined | services/lwmux/lwmux.c:449-455 | Ends joining and schedules the next opportunity. |
| Lwmux.Mux.OnJoinFailed | services/lwmux/lwmux.c:441-448 | Schedules another attempt. |
| Cmac.OsAesCmac | aes/aes-common.c:56-105 | For every block cipher, optional prefix block and message of at least a byte: the tag of section 2.4 of RFC 4493; an empty message leaves the chain value of the prefix. |
| Cmac.TagLast | aes/aes-common.c:76-101 | Adding the subkey after the last block has met the chain value, instead of before, gives the same tag. |
| Cmac.Absorb | aes/aes-common.c:63-74 | Takes in a block, padded with 0x80 if it is short. |
| Cmac.AddSubkey | aes/aes-common.c:76-101 | Adds K1, or K2 for a padded block, derived as in section 2.3 of RFC 4493. |
| Cmac.DoubleInPlace | aes/aes-common.c:84-96 | Doubling in the field of 128 bits. |
| Cmac.ShiftLeftInPlace | aes/aes-common.c:42-51 | Shifts the whole buffer left by one bit, with the carry from byte to byte. |
| Cmac.OsAesCtr | aes/aes-common.c:110-124 | Counter mode in which the last byte alone counts. |
| AesOriginal.OsAesMic | aes/aes-original.c:241-377 | The loop with its mode bits and its jump back computes the tag of section 2.4 of RFC 4493 for messages of 1 to 32767 bytes, with or without the prefix block, and processes no others. |
| AesOriginal.MicBlock | aes/aes-original.c:266-345 | From the data load to the end of the encryption, passed once, or twice when a subkey is derived first. |
| AesOriginal.LoadData | aes/aes-original.c:270-279 | Loads up to 16 bytes as big-endian words, padded with 0x80 and zeros. |
| AesOriginal.Subkey | aes/aes-original.c:322-331 | Turns the encrypted zero block into K1 or K2. |
| AesOriginal.MicsAgree | aes/aes-original.c:241-377 | Both implementations leave the same tag. |
| AesOriginal.OsAesCtrMode | aes/aes-original.c:241-377 | Counter mode in which the last 32-bit word counts, for up to 32767 bytes; longer buffers are left alone. |
| AesOriginal.XorWordStream | aes/aes-original.c:347-357 | XORs up to 16 bytes of the key stream, from the top of four words. |
| AesOriginal.SameStep | aes/aes-original.c:358-359 | The two implementations step a counter block alike exactly if its last byte does not overflow. |
| AesOriginal.CtrAgree | aes/aes-common.c:110-124 | Both implementations of counter mode agree on messages short enough for the last byte of the counter. |
| AesOriginal.CtrAt | aes/aes-common.c:110-124 | Byte r of block k of the output is that of the message xored with byte r of the encryption of counter block k. |
| AesOriginal.CountersDiffer | aes/aes-common.c:121-122 | On all longer messages they use different counter blocks. |
| AesOriginal.CtrAgreeIff | aes/aes-common.c:110-124 | Both implementations of counter mode agree for every cipher exactly if the message takes at most one block or the last byte of the counter plus the number of blocks is at most 256. |
| AesRounds.TableRoundIs | aes/aes-original.c:288-313 | For every block, key and substitution box, and word tables made from it, four table lookups a word are SubBytes, ShiftRows, MixColumns and AddRoundKey of section 5.1 of FIPS 197. |
| AesRounds.TableFinalIs | aes/aes-original.c:315-318 | The last round is SubBytes, ShiftRows and AddRoundKey. |
| AesRounds.KeyWordNext | aes/aes-original.c:227-235 | The words of the expanded key are those of the round-by-round key schedule. |
| AesRounds.RconIs | aes/aes-original.c:29-32 | The table of round constants holds the powers of two in the field of the cipher. |
| AesRounds.AesRoundKeys | aes/aes-original.c:217-237 | Expands the key in place. |
| AesRounds.TableEncrypt | aes/aes-original.c:288-319 | For every key and block, the rounds by such tables over the expanded key compute the cipher of section 5.1 of FIPS 197. |
| AesTables.EntryIs | aes/aes-original.c:34-191 | All 256 entries of AES_S, S_Table and AES_E1 to AES_E4, as they are in the source: the box is the affine image of the inverse in the field (section 5.1.1 of FIPS 197), both boxes are the same, and the words are the products that MixColumns needs. |
| AesTables.ShippedFromBox | aes/aes-original.c:53-191 | Hence the word tables are made from the box, for every byte. |
| AesTables.BlockCiphersAgree | aes/aes-original.c:217-319 | With the tables of the source, the rounds by tables and the cipher byte by byte compute the same ciphertext for every key and block, that of FIPS 197. |
| AesIdeetron.LmicAesEncrypt | aes/aes-ideetron.c:89-167 | For every key and block, the cipher byte by byte with its key schedule on the fly computes the same cipher, hence the same ciphertext. |
| AesIdeetron.CalculateRoundKey | aes/aes-ideetron.c:285-338 | Replaces the round key by the next one. |
| AesIdeetron.CalculateRcon | aes/aes-ideetron.c:313-324 | The doubling loop computes the round constant. |
| AesIdeetron.MixState | aes/aes-ideetron.c:254-275 | The product of each column with the polynomial of section 5.1.3 of FIPS 197. |
| AesIdeetron.ShiftState | aes/aes-ideetron.c:218-247 | Row r moves left by r. |
| AesIdeetron.SubState | aes/aes-ideetron.c:117-124 | Every byte is substituted. |
| AesIdeetron.AddRoundKey | aes/aes-ideetron.c:176-187 | Byte r + 4c of the round key goes to row r and column c. |
| AesIdeetron.Load | aes/aes-ideetron.c:96-103 | Fills the state column by column. |
| AesIdeetron.Unload | aes/aes-ideetron.c:158-165 | Reads the state column by column. |

## Left out

- Power failure inside `fuota_process`: the model takes a call as a whole. An unpacking that was interrupted is modelled, as the error state in which the session stays.
- The session record, matrix and block area share one flash in `fuota.c`; here the words of the record are fields, and the two areas separate arrays.
- `g_avalanche` is an arbitrary function, since nothing depends on its values, and `tn_avalanche` of the Python program the same one; both erased values of the flash are covered by a parameter.
- Hops.Perm: C leaves open which of the two bytes of a draw is read first; the model reads the higher one first.
- Sessions with no chunks or with empty chunks.
- `services/fuota/frag.c`, `services/fuota/fwman.c` and `services/fuota/fuota_hal.h` are not part of this model: messages, signatures and the flash driver.
- Torn writes inside one call of `pfs_write_block`; the checksum is an arbitrary function folded over the payloads, so its strength plays no part.
- Saves of no bytes, for which `chain_write` allocates a block that it never writes.
- `pfs_ls`: a listing.
- MAC options, decryption and class B and C behaviour of downlinks; the options of a repeated frame are parsed again in the source, and are not modelled.
- The time that `nextTx_fix` returns, and the hop state while joining.
- Regions with the flag `REG_PSA`, limits imposed by the network, the random delay and beacon tracking in `engineUpdate`, and the join path.
- Duty.DutyCycle.Engine: stated for 32768 ticks per second only, up-times below 17 years and airtimes whose thousandfold is below 2^30 ticks.
- Duty.Run: changes of the channel map or the data rate by MAC commands, switching duty cycles off, and `LMIC_selectChannel`, which names a channel for the next transmission without a check (`lmic/lmic.c`, lines 3213-3217) and is documented as a way around the duty cycle, are not among the events of a run.
- Duty.DutyCycle.SelectRandomChnl: the random number is any number that leads to an accepted draw, so that the repetition of refused draws is not modelled.
- Duty.DutyCycle.Rebase: for regions whose first band has no limits the availability of bands is not adjusted when the base moves, as in the source, and may come late.
- Masking of interrupts in `oslmic.c`, and what callbacks do.
- Lwmux.Mux.RequestSend: the queue is a sequence, so that the relinking of its elements is not modelled; `Jobs` does that for the scheduler's list.
- Slotted mode, the data-rate profile, and transmit or completion functions that call the multiplexer themselves: a completion function is called before anything else happens.
- The electronic-codebook mode of `os_aes`, decryption, and the bootloader.
- Radio drivers, region tables, `lmic/debug.c`, the remaining services and the tools.
