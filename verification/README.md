# Dragon OS builder and boot app: verified models

A Dafny model of the parts of the Dragon OS repository where an error would not show in a
screenshot: the disk images the C# builder writes, the machine code it emits, the screen the UEFI
boot app keeps up to date, and two pieces of the firmware it ships with. `dafny verify
dfyconfig.toml` checks all of it.

Code that works in place is modelled in place: byte and pixel arrays are arrays, assemblers,
iterators, readers and HOB lists are classes, and each loop is a loop proved against a function of
its input. The properties are then proved of those functions.

| files | what they model |
|---|---|
| `ShortNames`, `FatTree`, `FatLayout`, `Fat12Table`, `FatWriter`, `FatReader`, `FatImage` | the FAT12 EFI system partition, from package paths to disk bytes, and a reader written from Microsoft's FAT specification 1.03 (sections "Boot Sector and BPB", "FAT Data Structure" and "FAT Directory Structure") that recovers the tree |
| `Pixels`, `Surfaces`, `Ps2Mouse`, `SetupUi`, `KernelLoop` | pixel formats, bulk pixel operations, the PS/2 mouse, the setup screen, and the main loop that keeps framebuffer, shadow and compose buffer in step |
| `Assembler16`, `BootMachine`, `BootChain`, `BootRun`, `BootStart`, `BootShow`, `BootPrint`, `BootFloppy`, `BootReport` | the 16-bit assembler, a real-mode machine with its own decoder, the BIOS disk read and video calls, the two boot programs, and the proof that the built floppy boots and shows its image, or its error message when sectors are damaged |
| `X64Encoding`, `X64Assembler` | the x64 encoder with a decoder written from sections 2.1.3 and 2.2.1 of the Intel SDM, volume 2A, and the label and fixup assembler on top of it |
| `TpmEventLog`, `MemorySplit` | the TPM event log walker (TCG EFI Protocol Specification, section 5.2) and the split of the memory descriptor that holds the firmware device (PI specification volume 3, section 5.5) |
| `Bmp`, `Mp4` | the BMP writer and loader, and the MP4 box walk (ISO/IEC 14496-12, section 4.2) |
| `Bytes`, `Bits`, `Splices` | words, bit masks and buffer writes they share |

The main results, one per component:

- `FatImage.BuildEfiSystemPartition`: for any list of runtime files, a FAT12 reader run on the
  returned disk finds every path with the bytes last added under it and nothing else, and the FAT
  marks exactly the clusters handed out as used; or the build fails for exactly the two reasons
  the code names. A path written from plain names, however separated, is found under exactly those
  names (`FatTree.Tree.AddRuntimeFile`), and the boot sector is given byte by byte.
- `KernelLoop.Run`: over every run, screen = scene with cursor, shadow = scene drawn from
  scratch, hovered button = button under the cursor, the decoder is that of one pass over all
  bytes, and the pointer is where a model of the mouse run on what arrived puts it. No more bytes
  wait than a backlog that drains by 94 each iteration (`KernelLoop.QuietDrains`).
- `Ps2Mouse.ReportsMovePointer` with `Ps2Mouse.PointerMoves`: what a mouse reports, encoded and
  polled, moves the pointer by the sum of the movements, in pixels a closed form gives.
- `BootReport.BootEnds`: the built disk carries a signature a BIOS accepts, and from reset, whichever
  sectors are damaged, the machine running the assembled sectors ends asleep with the picture shown
  (`BootFloppy.BootShowsImage`: image loaded, exactly its palette sent to the ports, the screen filled
  with exactly its pixels) or with the error message that applies.
- `X64Assembler.FilledDecodes` and `Assembler16.Assembler.ToArray`: assembled code decodes to the
  instructions emitted, every displacement leading to its label.
- `TpmEventLog.DumpTpmEventLog` with `TpmEventLog.LogReadBack`, and `TpmEventLog.BuildFromPrinted`:
  the loop over a whole printed log visits its SpecId record and its entries, with the exact
  condition under which it does, and the HOBs built from it are those entries.
- `MemorySplit.HobList.MemoryPeim` and `MemorySplit.DeviceAlone`: no address is lost or covered
  twice, exactly when descriptors stay disjoint, and exactly when the device gets its own.
- `Bmp.WrittenLoads`, `Bmp.PictureLoads` and `Mp4.ParsePrinted`: reading inverts printing, down to
  the fields; every file that describes a picture in a supported layout loads as that picture, and a
  movie has the size of its last printed video track.

Where the code does less than one might expect, the exact condition is stated and an input shows
that it is needed: `X64Encoding.StackAdjustment` (amounts above 127 change sign),
`MemorySplit.DeviceAlone` (`MemorySplit.DeviceNotAlone`), `MemorySplit.DeclaringDisjoint`
(`MemorySplit.DeclaringOverlaps`), `MemorySplit.MainMemoryCovered`
(`MemorySplit.LowDescriptorAccepted`), `TpmEventLog.LogReadBack` (a digest that looks like a
SpecId signature, `TpmEventLog.MisreadEntryExists`), `Ps2Mouse.ReportRead` (a movement of more than
127 counts, `Ps2Mouse.FastReportMisread`) and `Surfaces.CopiedIntact` (an overlapping copy ahead,
`Surfaces.CopiedSmeared`).

## Model

| member | source | states |
|---|---|---|
| ShortNames.Sanitize | UefiSupport.cs:600-622 | keeps the first `max` ASCII letters and digits of the upper-cased name, or `X` when there is none |
| ShortNames.SanitizedIsShort | UefiSupport.cs:600-622 | every sanitised name is a legal 8.3 part, and sanitising it again changes nothing |
| ShortNames.NormalizeName | UefiSupport.cs:590-594 | a directory name is a legal eight-character part with an empty extension |
| ShortNames.NormalizeFile | UefiSupport.cs:596-601 | a file name has legal parts and its extension is never empty, so a file never shares an 8.3 name with a directory |
| ShortNames.WrittenSplits | UefiSupport.cs:474-477 | a path written from plain names, with `\` or `/` between them, white space around them and separators doubled, splits into exactly those names |
| ShortNames.FileNameSplits | UefiSupport.cs:596-601 | the last dot separates stem and extension; a name without one gets the extension `X` |
| ShortNames.SpelledName | UefiSupport.cs:600-622 | a name of letters and digits is kept up to case and cut to its width, and `X` stands for an empty one |
| FatTree.WalkInjective | UefiSupport.cs:536-577 | a directory is reached from the root by one path of short names only |
| FatTree.WalkSnoc | UefiSupport.cs:552-568 | extending a path by one name descends one directory |
| FatTree.NewDirectoryWellFormed | UefiSupport.cs:552-568 | creating a directory keeps parents, children, legal names and distinct names in step |
| FatTree.NewDirectoryLookup | UefiSupport.cs:552-568 | creating a directory changes the contents of no path |
| FatTree.WithFileWellFormed | UefiSupport.cs:570-576 | adding a file (removing the old one of that name) keeps the tree well formed |
| FatTree.WithFileLookup | UefiSupport.cs:570-576 | adding a file sets exactly its own path and leaves every other path's contents alone |
| FatTree.Tree.constructor | UefiSupport.cs:233-233 | a fresh tree holds nothing under any path |
| FatTree.Tree.GetOrAddDirectory | UefiSupport.cs:552-568 | returns the child directory of that short name, creating it if needed, without changing what any path holds |
| FatTree.Tree.AddFile | UefiSupport.cs:570-576 | stores the bytes under exactly that path of the tree, replacing a file of that name |
| FatTree.Tree.AddRuntimeFile | UefiSupport.cs:474-490 | a path with no segments is ignored; otherwise exactly its short path changes, to the file's bytes; a path written from names is found under exactly those names |
| FatTree.AddedUnderNames | UefiSupport.cs:474-490 | a file whose path is written from names, in any of the accepted spellings, is added under the short forms of exactly those names |
| FatTree.ManifestPlace | Program.cs:1113-1113 | the builder's own `DRAGON\MANIFEST.TXT` is the file MANIFEST.TXT of the directory DRAGON |
| FatTree.TreeOf | UefiSupport.cs:233-241 | for every list of package files the tree they stand for is well formed: parents, children, owners, legal and distinct names |
| FatTree.BuildTree | UefiSupport.cs:233-241 | ends with exactly that tree, and every short path holds the bytes of the last file added under it, or the boot loader, or nothing |
| FatTree.BootLoaderPlace | UefiSupport.cs:233-236 | unless a file replaces it, the boot loader is found as EFI/BOOT/BOOTX64.EFI |
| FatLayout.CollectDirectories | UefiSupport.cs:492-499 | appends the directory and all below it, parents first |
| FatLayout.CollectFiles | UefiSupport.cs:501-514 | appends every file in and below the directory, in child order |
| FatLayout.DirsOnce | UefiSupport.cs:492-499 | no directory is collected twice |
| FatLayout.FilesOnce | UefiSupport.cs:501-514 | no file is collected twice |
| FatLayout.CollectedClosed | UefiSupport.cs:492-514 | whatever a collected directory holds is collected too |
| FatLayout.ClustersNeeded | UefiSupport.cs:252-264 | the smallest number of clusters that holds a node's contents, and one when it is empty |
| FatLayout.StartsIncrease | UefiSupport.cs:248-264 | extents are handed out in order without overlap: a later one starts at or after the end of an earlier one |
| FatLayout.ExtentsTile | UefiSupport.cs:248-264 | every cluster handed out belongs to some extent: the tiling of [2, next) has no gap |
| FatLayout.OrderFacts | UefiSupport.cs:243-264 | the allocation order holds only nodes of the tree, none twice, and lists sub-directories before files |
| FatLayout.OrderComplete | UefiSupport.cs:243-264 | every child of every directory that some path leads to has its place in the order |
| Fat12Table.EntryBits | UefiSupport.cs:417-431 | which bits of its two bytes belong to a 12-bit entry |
| Fat12Table.WithEntryRead | UefiSupport.cs:417-431 | a write sets its entry to the low twelve bits and leaves every other entry, also the one sharing a byte, as it was |
| Fat12Table.SetFat12Entry | UefiSupport.cs:417-431 | the in-place write is that update of the byte array |
| Fat12Table.WrittenRead | UefiSupport.cs:402-431 | after any sequence of writes each entry reads as the last value written to it |
| Fat12Table.WriteFat12Entries | UefiSupport.cs:402-415 | the whole table reads back entry by entry, with zeros behind it |
| Fat12Table.LinkClusterChain | UefiSupport.cs:516-525 | links exactly the extent, each cluster to the next and the last to 0xFFF, and nothing else |
| FatWriter.WriteDirectoryEntry | UefiSupport.cs:451-466 | the 32 bytes become padded name and extension, attribute, cluster and size; the rest of the buffer is unchanged |
| FatWriter.WriteSpecialDirectoryEntry | UefiSupport.cs:433-449 | the 32 bytes become a `.` or `..` entry padded with zero bytes, as the code does, not spaces |
| FatWriter.WriteNodeEntry | UefiSupport.cs:367-377 | a directory or file entry of that node |
| FatWriter.EntryLayout | UefiSupport.cs:367-377 | a node's entry byte by byte: attribute 0x20 for a file and 0x10 for a directory, size 0 for a directory, zeros where nothing is written |
| FatWriter.SpecialLayout | UefiSupport.cs:433-449 | a `.` or `..` entry byte by byte |
| FatWriter.DirectoryBytes | UefiSupport.cs:349-362 | `.` with the own cluster, `..` with the parent's (0 below the root), one entry per child in order, then zeros |
| FatWriter.WriteDirectoryClusters | UefiSupport.cs:349-365 | the directory's clusters hold exactly that and nothing else on the disk changes |
| FatWriter.WriteFileToClusterChain | UefiSupport.cs:379-400 | the extent holds the data cut into clusters, zero-filled, and nothing else changes |
| FatWriter.WriteRootDirectory | UefiSupport.cs:337-347 | fails exactly when the root has more than 224 children; otherwise the root area lists them in order |
| FatWriter.WriteBootSector | UefiSupport.cs:300-324 | every boot sector field reads back, and no byte between the fields or behind the sector changes |
| FatWriter.BootSectorIs | UefiSupport.cs:300-324 | over a cleared disk the boot sector is, byte by byte, the one the fields, texts and signature spell |
| FatWriter.WriteFatCopies | UefiSupport.cs:326-335 | both FAT copies are equal and decode to the whole table |
| FatImage.AssignClusters | UefiSupport.cs:248-264 | sub-directories, then files, get consecutive extents from cluster 2, and the next free cluster is returned |
| FatImage.LinkAll | UefiSupport.cs:271-284 | every extent is linked in one table, no link disturbs another, every cluster handed out is marked used, entries 0 and 1 hold the media descriptor and an end mark, and the spare last entry is free |
| FatImage.ChainReads | UefiSupport.cs:516-525 | a reader following a linked extent visits its clusters in order and stops after exactly that many |
| FatImage.EntryDecodes | UefiSupport.cs:451-466 | an encoded entry read by the FAT specification gives back name, extension, attribute, cluster and size |
| FatImage.HeaderDecodes | UefiSupport.cs:351-357 | the `.` and `..` entries point to the directory itself and to its parent |
| FatImage.StoredBytes | UefiSupport.cs:379-400 | the bytes a reader gathers from a stored node's chain are its payload |
| FatImage.EntriesRead | UefiSupport.cs:337-394 | reading a directory's entries gives its children, with everything below them |
| FatImage.FindPathView | UefiSupport.cs:536-577 | looking a path up in the tree read back is looking it up in the tree that was built |
| FatImage.ViewNamesDistinct | UefiSupport.cs:552-576 | no two entries of one directory on the volume share an 8.3 name, at every depth |
| FatImage.ImageReads | UefiSupport.cs:230-298 | an independent reader (BPB, FAT, root, chains) run on a finished image recovers the tree |
| FatImage.WriteImage | UefiSupport.cs:266-297 | writing the extents, FATs, boot sector and directories of an allocated tree gives a disk with that boot sector, which a reader turns back into the tree, and whose FAT marks exactly the clusters handed out as used |
| FatImage.BuildEfiSystemPartition | UefiSupport.cs:230-298 | for every list of files, in terms of the tree they stand for: out of space exactly when its clusters do not fit, root full exactly when it then has more than 224 entries, and otherwise a reader of the disk finds exactly that tree, so every path with the bytes last added under it and no other path, and the FAT loses no cluster |
| Pixels.FindMaskShift | BootApp.c:381-390 | the loop finds the lowest set bit |
| Pixels.FindMaskWidth | BootApp.c:392-403 | the loop counts the ones from there |
| Pixels.FieldShiftWidth | BootApp.c:381-403 | for a contiguous mask these are its position and width |
| Pixels.FixedFormats | BootApp.c:437-447 | in the two fixed formats the three channels lie in memory in the order the format names them, then a zero |
| Pixels.FixedDecompose | BootApp.c:453-495 | decomposing undoes composing in the two fixed formats |
| Pixels.ComposedField | BootApp.c:405-451 | each mask holds its own channel, scaled to the mask's width and rounded to the nearest |
| Pixels.BlendedChannels | BootApp.c:497-524 | blending in a fixed format blends each channel with its own |
| Pixels.BlendChannel | BootApp.c:497-524 | the nearest number to the weighted mean of the two channels; alpha 255 and 0 give one or the other |
| Pixels.DecomposeOfCompose | BootApp.c:437-495 | decomposing a composed pixel gives the colour back, for disjoint contiguous masks of 8 to 24 bits |
| Pixels.ComposeOfDecompose | BootApp.c:437-495 | composing a decomposed pixel gives its masked bits back, for disjoint contiguous masks of 1 to 8 bits |
| Pixels.ExtractBitfieldChannel | Program.cs:1497-1521 | the builder's channel extraction agrees with the boot app's decomposition |
| Pixels.ExtractedNearest | Program.cs:1497-1521 | a mask of one to eight bits is read as a channel out of 255, rounded to the nearest |
| Surfaces.FillPixels32 | BootApp.c:587-629 | the unrolled fill by 64-bit words of two packed pixels with its tail, aligned or not, fills exactly those pixels, for every count |
| Surfaces.CopyPixels32 | BootApp.c:631-673 | the unrolled copy by 64-bit words, aligned or not, is the pixel-by-pixel copy, for every count and any overlap |
| Surfaces.CopiedIntact | BootApp.c:631-673 | the run arrives intact if and only if the buffers differ, the destination starts no later than the source, or the pixels both runs share repeat at the distance between the starts; so always when the runs do not overlap |
| Surfaces.CopiedAhead | BootApp.c:631-673 | copying a run ahead onto itself repeats the pixels between the two starts instead, at every position |
| Surfaces.CopiedSmeared | BootApp.c:631-673 | a concrete run that an overlapping copy ahead does not deliver intact |
| Surfaces.BlitSurfaceRect | BootApp.c:675-720 | copies the rectangle clipped to both screens and changes no other pixel |
| Surfaces.ClearScreen | BootApp.c:576-585 | every pixel takes the colour, unless black is to be ignored |
| Ps2Mouse.DecodeConcat | BootApp.c:2464-2508 | decoding does not depend on where the byte stream is cut into polls |
| Ps2Mouse.AccelerationShape | BootApp.c:2048-2063 | acceleration is odd and stretches a movement by one to three times |
| Ps2Mouse.AcceleratedIs | BootApp.c:2048-2063 | the distance of a poll in closed form: 128t + 12t^2 up to 21 counts, 384t up to 64, 24576 beyond, and odd |
| Ps2Mouse.AccelerationMonotone | BootApp.c:2048-2063 | a larger movement is never accelerated to a smaller one |
| Ps2Mouse.ClampCoordinate | BootApp.c:1960-1981 | the nearest coordinate inside the limit: in-range values are kept, negative ones become 0 and the others the last coordinate |
| Ps2Mouse.ClampCursor | BootApp.c:1983-1997 | the cursor's corner stays where the whole cursor is on screen, when it fits at all: kept if it was there, else moved to the nearer end |
| Ps2Mouse.AcceptByte | BootApp.c:2480-2494 | one mouse byte is dropped, stored or completes a packet exactly as the decoder says |
| Ps2Mouse.ReadPackets | BootApp.c:2464-2508 | one poll reads until nothing is left, 96 bytes are read or 32 usable packets are complete, no further and no less, and its sums, count, button and open packet are those of the one-pass decoder |
| Ps2Mouse.PollEndsOnce | BootApp.c:2464-2508 | what is pending determines how far a poll reads |
| Ps2Mouse.PollTakes | BootApp.c:2464-2508 | a poll that leaves bytes behind has taken at least 94 |
| Ps2Mouse.SubPixel | BootApp.c:2527-2533 | splitting off whole pixels leaves less than one pixel, of the same sign |
| Ps2Mouse.PointerMoves | BootApp.c:2524-2541 | on each axis the whole pixels of what is due, clamped to 64 pixels, are moved and the rest stays due, stopping at the edge of the screen; distances in closed form |
| Ps2Mouse.MovePointer | BootApp.c:2524-2541 | 256 times the pixels moved plus the new remainder is the clamped old remainder plus accelerated movement |
| Ps2Mouse.UpdateCursorFromPs2Mouse | BootApp.c:2442-2543 | the whole poll: how far it reads, what it reads, the movement it conserves, the clamped cursor; movements that cancel move nothing and are not counted; a disabled mouse reads nothing |
| Ps2Mouse.ReportsMovePointer | BootApp.c:2442-2543 | a poll of up to 32 reports of a mouse, encoded as the protocol sends them, moves the pointer by their summed movements, those with an overflow left out, with y upwards |
| Ps2Mouse.ReportsDecode | BootApp.c:2480-2508 | encoded reports decode to their movements, overflows and button |
| Ps2Mouse.ReportRead | BootApp.c:2498-2499 | a nine-bit movement is read as sent if and only if it is from -128 to 127: the sign bits of the first byte are not used |
| Ps2Mouse.FastReportMisread | BootApp.c:2498-2499 | a concrete report, 130 to the right, that is read as 126 to the left |
| Ps2Mouse.AfterSettles | BootApp.c:2515-2543 | a poll moves the pointer only with the movement read, in its direction on each axis, keeps it on screen and leaves less than a pixel due |
| Ps2Mouse.PollingIs | BootApp.c:2442-2543 | bytes left, open packet, button, position and remainder after a poll are a function of those before it |
| SetupUi.ButtonRedraw | BootApp.c:2629-2651 | redrawing a button hides its earlier state and touches nothing outside its outline |
| SetupUi.RefreshIsRedraw | BootApp.c:2653-2669 | refreshing the changed buttons gives, pixel by pixel, the screen drawn from scratch |
| SetupUi.SceneOutside | BootApp.c:2653-2669 | a hover change shows only inside the buttons concerned |
| SetupUi.DrawRoundedBox | BootApp.c:1019-1041 | colours exactly the visible points of the rounded box |
| SetupUi.RoundedExactly | BootApp.c:981-1016 | the outline is the rectangle without what lies outside the discs that round its corners, alike in all four |
| SetupUi.DrawSetupButton | BootApp.c:2629-2651 | each pixel becomes that of the button in its hover state |
| SetupUi.RefreshSetupButtons | BootApp.c:2653-2669 | draws the buttons whose state changes, and nothing when none does |
| SetupUi.DrawSetupScreen | BootApp.c:2671-2735 | the surface shows the scene for the current hovered button, whatever it showed before |
| SetupUi.HoverShown | BootApp.c:2629-2651 | off the texts, each button shows whether it is the hovered one, the first for Install and the second for Try |
| SetupUi.ColoursAre | BootApp.c:2671-2735 | the colours of buttons, panel and background byte by byte |
| SetupUi.HitTestSetupUi | BootApp.c:2603-2627 | 1 or 2 exactly when the middle of the cursor is in that button |
| SetupUi.LayOut | BootApp.c:2545-2601 | on a large enough screen no subtraction wraps, the boxes are on screen and the buttons apart |
| SetupUi.LayOutIs | BootApp.c:2545-2601 | the layout in distances: panel centred, buttons 72 from its right edge, 34 apart and 120 above its bottom, sizes, radii and colours |
| SetupUi.LargeEnoughIs | BootApp.c:2545-2601 | that is exactly a screen of at least 360 by 326 pixels |
| SetupUi.LayOutValid | BootApp.c:2545-2601 | the layout is one the main loop can start from exactly when both captions stay in their buttons |
| SetupUi.CentredInside | BootApp.c:2629-2651 | a caption centred as DrawSetupButton centres it stays in the rounded outline when it leaves the corner radius free |
| KernelLoop.CursorImage.constructor | BootApp.c:846-880 | a cursor pixel is opaque exactly when its alpha is not zero, and its colour is blended over black |
| KernelLoop.SaveCursorBackground | BootApp.c:904-930 | the saved rectangle is the on-screen part of the cursor and holds the surface's pixels |
| KernelLoop.DrawCursor | BootApp.c:932-950 | overlays exactly the opaque pixels of the saved rectangle |
| KernelLoop.BlitCursorComposite | BootApp.c:1710-1751 | through the compose buffer or directly, the screen becomes the scene with the cursor on top |
| KernelLoop.EraseCursor | BootApp.c:3036-3044 | the rectangle takes the shadow's pixels; when shadow and framebuffer are one buffer nothing is erased |
| KernelLoop.ProtocolStep | BootApp.c:2464-2513 | a poll picks decoding up where the last one left it |
| KernelLoop.KernelMouseLoop.constructor | BootApp.c:2963-3022 | before the loop the screen already is the scene with the cursor on top, the cursor is in the middle of the screen as far as it fits, and no movement is due |
| KernelLoop.KernelMouseLoop.Iterate | BootApp.c:3024-3084 | every iteration reads as far as a poll does, moves the pointer exactly as the bytes read make it, and keeps framebuffer = scene with cursor, shadow = scene from scratch, hovered button = hit test of the cursor, and decoder state = one pass over all bytes consumed |
| KernelLoop.KernelMouseLoop.ChangeHover | BootApp.c:3046-3076 | shadow and screen both show the scene for the new hovered button |
| KernelLoop.Run | BootApp.c:3024-3084 | the same after any number of iterations with bytes arriving in any portions: screen, shadow, hovered button and decoder state in step, pointer position, sub-pixel remainder, button and unread bytes exactly those of the model of the mouse run on what arrived; no byte is lost or read twice, and no more wait than the backlog bound, which 94 bytes leave every iteration |
| KernelLoop.RunKernelMouseLoop | BootApp.c:2963-3084 | from initialisation: the whole run of the mouse is that of the model started in the middle of the screen |
| KernelLoop.StartsInMiddle | BootApp.c:2963-3022 | the pointer starts in the middle of the screen to half a pixel, with nothing due |
| KernelLoop.QuietDrains | BootApp.c:3024-3084 | iterations without arrivals drain the backlog, 94 bytes or more each, until nothing waits |
| KernelLoop.KeepsUp | BootApp.c:3024-3084 | while at most 94 bytes arrive per iteration nothing is ever left waiting |
| Assembler16.LinkedUnique | Program.cs:1571-1621 | a program has one linked image, so assembling it again gives the same bytes |
| Assembler16.OperandDecodes | Program.cs:1580-1612 | a patched operand read back is the label's address modulo 2^16 or the signed distance from the operand's end |
| Assembler16.OffsetMonotone | Program.cs:1539-1569 | items follow one another, so operand windows do not overlap |
| Assembler16.PrefixSame | Program.cs:1539-1569 | an item does not move when more is emitted after it |
| Assembler16.PatchKeeps | Program.cs:1580-1612 | patching one operand completes its item and disturbs no other byte of any item |
| Assembler16.Assembler.Emit | Program.cs:1539-1754 | one emitting call appends one item, with a fixup when it names a label |
| Assembler16.Assembler.ToArray | Program.cs:1571-1621 | succeeds exactly when every label exists, every relative one is in reach and the length is as expected; then the bytes are the two-pass linked program, and stay so |
| Assembler16.Assemble | Program.cs:455-605 | emitting any program and assembling it is linking it, or fails exactly then |
| BootMachine.EncodingDecodes | Program.cs:1623-1754 | the 8086 decoder reads every instruction of both boot programs back as intended, whatever bytes follow |
| BootChain.ChsInverse | Program.cs:182-196 | the conversion fails exactly past cylinder 255, and (cylinder*2+head)*18+sector-1 gives the sector number back |
| BootChain.BuildSectorTable | Program.cs:168-180 | the table of every sector, or failure exactly when some sector is past cylinder 255 |
| BootChain.TableEntry | Program.cs:168-180 | the three bytes of each entry are its sector's cylinder, head and sector |
| BootChain.LabelHere | Program.cs:1539-1539 | the last mark of a label fixes its address |
| BootRun.StepItem | Program.cs:513-605 | one machine step at an item of a linked program in memory does what the item means |
| BootRun.Request | Program.cs:535-541 | the disk request of a round asks for the table's sector and it arrives behind the earlier ones |
| BootRun.OneRound | Program.cs:533-546 | one round of stage 2's loop places the next sector and leaves the earlier ones, the code, the table and the stack as they must be |
| BootRun.RunLoop | Program.cs:533-546 | from any round to any later one, the loop brings the sectors between into memory, for any count from 1 to 128 |
| BootShow.EnterMode | Program.cs:548-552 | the BIOS call sets the video mode and the data segment becomes the image |
| BootShow.AllColours | Program.cs:553-563 | the palette loop sends every byte of the palette once, in order, to the data port |
| BootShow.AllWords | Program.cs:565-570 | the repeated move puts every word of the picture on the screen and changes no other memory |
| BootShow.Halts | Program.cs:572-573 | at the halt the machine stays as it is |
| BootStart.RunPrologue | Program.cs:518-526 | segments cleared, stack set, and the boot drive number stored in the program's own data byte |
| BootStart.Stage2Starts | Program.cs:517-531 | stage 2 reaches its loop with table pointer, buffer and count set |
| BootStart.FetchStage2 | Program.cs:469-476 | stage 1's single disk request fits one track and brings the whole of stage 2 to its load address |
| BootStart.Stage1Runs | Program.cs:459-478 | from reset, stage 1 reads stage 2 and jumps to it with the drive number still in DL |
| BootFloppy.Stage1Resolves | Program.cs:455-511 | every label of stage 1 exists and is in reach, whatever the sector count |
| BootFloppy.Stage2Resolves | Program.cs:513-605 | every label of stage 2 exists and is in reach, whatever the table |
| BootFloppy.Stage1Fits | Program.cs:455-511 | stage 1 is exactly 512 bytes |
| BootFloppy.PassesAgree | Program.cs:57-75 | both passes over stage 2 give the same length, so the image starts where the first pass assumed |
| BootFloppy.Stage2SizeBound | Program.cs:513-605 | stage 2 is at most 291 bytes plus three per image sector |
| BootFloppy.ManyFit | Program.cs:57-80 | every image of up to 2804 sectors can be built |
| BootFloppy.PadToSector | Program.cs:198-209 | whole sectors: the data, then zeros |
| BootFloppy.BuildDiskImage | Program.cs:145-166 | stage 1, padded stage 2, padded image and zeros, or failure exactly on a wrong stage 1 size or too much data |
| BootFloppy.BuildFloppy | Program.cs:57-80 | succeeds exactly when the image fits, and then all parts are linked against the layout of the disk they are on, and the disk has 2880 sectors, the first ending in 55 AA as a BIOS demands |
| BootFloppy.DiskParts | Program.cs:145-166 | where stage 1, stage 2 and the image are on the disk |
| BootFloppy.DiskBootable | Program.cs:507-510 | the disk's first sector ends in 55 AA and the disk is 1474560 bytes long, without which the machine does not start it |
| BootFloppy.BootLoadsImage | Program.cs:57-80 | a floppy built for an image of 1 to 128 sectors boots: from reset, with all other registers and memory arbitrary and the sectors of stage 2 and the image readable, the machine gets past stage 2's loop with exactly the padded image at the load segment |
| BootFloppy.BootShowsImage | Program.cs:513-574 | the floppy shows its image, when its sectors are readable: from reset the machine sets mode 13h, sends exactly the 768 palette bytes from index 0 to the palette ports, fills the screen with exactly the 64000 pixels and halts |
| BootReport.BootReportsStage2 | Program.cs:459-510 | when a sector of stage 2 cannot be read, the machine shows exactly `Stage 2 load failed` and sleeps, also when woken |
| BootReport.BootReportsImage | Program.cs:513-601 | when a sector of the image cannot be read, whichever, the machine shows exactly `Image load failed` and sleeps |
| BootReport.BootEnds | Program.cs:455-605 | every boot of a built floppy, whichever sectors are damaged, ends asleep with the picture on the screen or with the message that applies |
| BootPrint.CallPrints | Program.cs:484-496 | calling the print routine shows exactly the text up to its zero byte and returns behind the call with the stack as it was |
| X64Encoding.EncodingDecodes | UefiSupport.cs:950-1166 | a decoder inverts every emitted form, for every register pair and displacement, including REX bits and the SIB byte of RSP and R12 |
| X64Encoding.PrefixDecodes | UefiSupport.cs:1136-1163 | the REX bits seen by the decoder are the ones sent, whether or not the byte is emitted |
| X64Encoding.MemoryDecodes | UefiSupport.cs:1103-1124 | a memory operand reads back as its base and displacement, with 8 or 32 bits |
| X64Encoding.RegisterDecodes | UefiSupport.cs:1165-1166 | a register operand reads back as both its registers |
| X64Encoding.StackAdjustment | UefiSupport.cs:955-969 | SubRsp and AddRsp move the stack pointer by the amount given exactly when it is at most 127 |
| X64Assembler.Assembler.Align | UefiSupport.cs:901-907 | pads with 0x90 to the next multiple and no further |
| X64Assembler.Assembler.Emit | UefiSupport.cs:950-1172 | appends the encoding, and a blank displacement with its fixup when a label is named |
| X64Assembler.Assembler.ToArray | UefiSupport.cs:919-948 | fails exactly on an unknown label; otherwise every instruction is complete, every byte outside the displacements is as emitted, and the assembler itself is unchanged |
| X64Assembler.WindowsApart | UefiSupport.cs:1168-1172 | no two displacements overlap |
| X64Assembler.FilledDecodes | UefiSupport.cs:919-948 | in the result every instruction decodes to its operation and its displacement leads from its end exactly to its label |
| TpmEventLog.GetHashInfo | edk2/ArmPlatformPkg/PlatformPei/PlatformPeiTpmEventLog.c:50-70 | finds the table entry of a known algorithm, and fails on no other |
| TpmEventLog.GetDigestListSize | edk2/ArmPlatformPkg/PlatformPei/PlatformPeiTpmEventLog.c:141-180 | the loop computes the size of the digest list, 0 when an algorithm is unknown or there is none |
| TpmEventLog.EventLogIterator.GetNext | edk2/ArmPlatformPkg/PlatformPei/PlatformPeiTpmEventLog.c:220-275 | the next record and its size, NOT_FOUND at the end, INVALID_PARAMETER when it cannot be parsed; after an error it starts over |
| TpmEventLog.DumpTpmEventLog | edk2/ArmPlatformPkg/PlatformPei/PlatformPeiTpmEventLog.c:436-457 | the loop over the iterator ends on any memory and visits exactly the records of the walk, in order |
| TpmEventLog.BuildOnePeiEventLogHob | edk2/ArmPlatformPkg/PlatformPei/PlatformPeiTpmEventLog.c:469-540 | copies the record into a HOB unless it is a startup locality other than 3, finding the event data exactly where the size walker does, on any memory |
| TpmEventLog.BuildRemaining | edk2/ArmPlatformPkg/PlatformPei/PlatformPeiTpmEventLog.c:599-610 | the do-while loop ends on any memory and builds what the specification of the walk says |
| TpmEventLog.BuildPeiEventLogHobs | edk2/ArmPlatformPkg/PlatformPei/PlatformPeiTpmEventLog.c:552-611 | no log is fine, a log without a leading SpecId record is invalid, every later record is handled in order until one fails |
| TpmEventLog.EventFields | edk2/ArmPlatformPkg/PlatformPei/PlatformPeiTpmEventLog.c:147-180 | the fields of a printed entry are where the walkers look for them, for any list of supported digests |
| TpmEventLog.KnownSize | edk2/ArmPlatformPkg/PlatformPei/PlatformPeiTpmEventLog.c:50-70 | SHA-1, SHA-256, SHA-384 and SHA-512 have 20, 32, 48 and 64 bytes, and no other algorithm has a size |
| TpmEventLog.UnknownAlgorithm | edk2/ArmPlatformPkg/PlatformPei/PlatformPeiTpmEventLog.c:141-180 | a digest of any other algorithm stops the walk |
| TpmEventLog.EntrySize | edk2/ArmPlatformPkg/PlatformPei/PlatformPeiTpmEventLog.c:220-275 | a printed entry is read with its own size if and only if it is not taken for a SpecId record of another size |
| TpmEventLog.EntriesReadBack | edk2/ArmPlatformPkg/PlatformPei/PlatformPeiTpmEventLog.c:220-275 | iterating printed entries yields exactly those records in order and then NOT_FOUND, if and only if none is misread |
| TpmEventLog.LogReadBack | edk2/ArmPlatformPkg/PlatformPei/PlatformPeiTpmEventLog.c:436-457 | walking a whole printed log yields its leading SpecId record and then its entries, if and only if no entry is misread |
| TpmEventLog.EntriesBuilt | edk2/ArmPlatformPkg/PlatformPei/PlatformPeiTpmEventLog.c:469-611 | the HOBs of printed entries are those entries without startup localities other than 3, in order, as far as there is room |
| TpmEventLog.BuildFromPrinted | edk2/ArmPlatformPkg/PlatformPei/PlatformPeiTpmEventLog.c:552-611 | the whole path from a printed log, with its leading SpecId record, to the HOB list |
| TpmEventLog.MisreadEntryExists | edk2/ArmPlatformPkg/PlatformPei/PlatformPeiTpmEventLog.c:80-115 | an entry whose SHA-384 digest holds the SpecId signature is misread, so the condition is needed |
| MemorySplit.HobList.DeclareMainMemory | edk2/ArmPlatformPkg/MemoryInitPei/MemoryInitPeiLib.c:98-123 | appends a descriptor for main memory exactly when no descriptor is accepted |
| MemorySplit.MainMemoryKnown | edk2/ArmPlatformPkg/MemoryInitPei/MemoryInitPeiLib.c:98-123 | a list that has a descriptor of main memory is left alone |
| MemorySplit.OneEntry | edk2/ArmPlatformPkg/MemoryInitPei/MemoryInitPeiLib.c:98-123 | for a list of one entry: exactly when it is accepted, and the descriptor declared otherwise with its attributes |
| MemorySplit.HobList.Split | edk2/ArmPlatformPkg/MemoryInitPei/MemoryInitPeiLib.c:142-184 | edits the holder in place and appends the pieces and the allocation |
| MemorySplit.HobList.MemoryPeim | edk2/ArmPlatformPkg/MemoryInitPei/MemoryInitPeiLib.c:98-201 | both searches and the split of the first holder; the ASSERT fails exactly when no descriptor contains the device; from end to end every address is covered as often as before, apart from main memory where it is declared, and the descriptors end disjoint exactly when they were and the declared memory is apart from them |
| MemorySplit.HolderCovers | edk2/ArmPlatformPkg/MemoryInitPei/MemoryInitPeiLib.c:137-144 | a descriptor holds the device exactly when it covers every byte of it |
| MemorySplit.SplitConserves | edk2/ArmPlatformPkg/MemoryInitPei/MemoryInitPeiLib.c:142-184 | every address is covered exactly as often as before, with the same attributes |
| MemorySplit.SplitDisjoint | edk2/ArmPlatformPkg/MemoryInitPei/MemoryInitPeiLib.c:142-184 | the descriptors are disjoint after the split exactly when they were before |
| MemorySplit.DeclaringDisjoint | edk2/ArmPlatformPkg/MemoryInitPei/MemoryInitPeiLib.c:98-123 | declaring main memory leaves the descriptors disjoint exactly when they were and it is apart from each of them, or it was not needed |
| MemorySplit.DeclaringOverlaps | edk2/ArmPlatformPkg/MemoryInitPei/MemoryInitPeiLib.c:98-123 | a concrete list of disjoint descriptors that the declaration makes overlap |
| MemorySplit.DeviceAlone | edk2/ArmPlatformPkg/MemoryInitPei/MemoryInitPeiLib.c:142-184 | the device gets a descriptor of its own, unless and only unless it starts with its holder, ends at the top of memory and the holder runs past that |
| MemorySplit.DeviceNotAlone | edk2/ArmPlatformPkg/MemoryInitPei/MemoryInitPeiLib.c:142-184 | a concrete list for which the device gets no descriptor of its own |
| MemorySplit.DeviceAloneWithinMemory | edk2/ArmPlatformPkg/MemoryInitPei/MemoryInitPeiLib.c:142-184 | where the holder does not run past the top of memory the device always gets one |
| MemorySplit.RestUntouched | edk2/ArmPlatformPkg/MemoryInitPei/MemoryInitPeiLib.c:142-193 | all other list entries are unchanged, one allocation is added, and exactly when an empty descriptor remains |
| MemorySplit.MainMemoryCovered | edk2/ArmPlatformPkg/MemoryInitPei/MemoryInitPeiLib.c:98-118 | main memory is covered afterwards exactly when it was before or no descriptor was accepted |
| MemorySplit.LowDescriptorAccepted | edk2/ArmPlatformPkg/MemoryInitPei/MemoryInitPeiLib.c:101-104 | a descriptor wholly below main memory is accepted, and main memory stays undeclared |
| MemorySplit.DeclaredHolds | edk2/ArmPlatformPkg/MemoryInitPei/MemoryInitPeiLib.c:110-134 | when main memory was declared here, the search for the device's holder succeeds |
| Bmp.Load | Program.cs:1353-1486 | the image the file holds pixel by pixel, for 8, 24 and 32 bits, top-down or bottom-up, or an error the file justifies |
| Bmp.LoadedUnique | Program.cs:1353-1486 | a file determines its image |
| Bmp.LoadedNotRefused | Program.cs:1353-1486 | no file can be both loaded and refused |
| Bmp.PictureLoads | Program.cs:1353-1486 | any file that describes a picture, 8-bit with a palette, 24-bit, 32-bit or 32-bit with masks, from the top or from the bottom, loads as exactly that picture |
| Bmp.FormatAccepted | Program.cs:1353-1386 | the headers accepted, field by field |
| Bmp.StridesAgree | Program.cs:865-865 | the writer's row stride is the loader's |
| Bmp.WriteHeader | Program.cs:870-880 | every header field reads back and the bytes between them stay zero |
| Bmp.HeaderIs | Program.cs:865-880 | a written header byte by byte |
| Bmp.WriteRow | Program.cs:885-897 | one row: its pixels, then zeros exactly up to the stride |
| Bmp.Write24BitBmp | Program.cs:863-900 | the rows of the image from the bottom up behind the headers |
| Bmp.WrittenLoads | Program.cs:863-900 | loading a written file gives exactly the image written, and no error, for all positive sizes |
| Mp4.HeaderAt | Program.cs:1166-1189 | a box that is entered ends inside its parent and at least 8 bytes on |
| Mp4.Reader.ReadHeader | Program.cs:1166-1189 | the header part of each loop, in all three size forms, with the overflow error |
| Mp4.Reader.ParseMovieHeader | Program.cs:1299-1316 | duration over timescale of either version, 0 for a zero timescale |
| Mp4.Reader.ParseTrackHeader | Program.cs:1318-1334 | width and height of either version |
| Mp4.Reader.ParseMedia | Program.cs:1263-1297 | whether the last handler is a video handler |
| Mp4.Reader.ParseTrack | Program.cs:1224-1261 | the track's size and kind |
| Mp4.Reader.ParseBoxRange | Program.cs:1164-1222 | terminates on every file and computes the walk's result, box by box |
| Mp4.OnlyVideoTracks | Program.cs:1199-1214 | on any file, well formed or not, width and height change only if the walk reaches a video track |
| Mp4.VideoRegardlessOfSize | Program.cs:1224-1261 | whether a track is video does not depend on the size found before it |
| Mp4.TryParse | Program.cs:1150-1162 | accepts exactly when width, height and duration are all positive |
| Mp4.HeaderPrinted | Program.cs:1166-1189 | a printed box header is read back, with a 32-bit or a 64-bit size |
| Mp4.OtherSizes | Program.cs:1166-1189 | size 0 reaches to the end of the parent; a size short of the header or past the parent ends the walk |
| Mp4.OtherLongSizes | Program.cs:1166-1189 | the same for 64-bit sizes, and an error from 2^63 on |
| Mp4.DurationPrinted | Program.cs:1299-1316 | the duration and timescale of a printed movie header are read back from either layout |
| Mp4.SizePrinted | Program.cs:1318-1334 | the width and height of a printed track header are read back from either layout |
| Mp4.HandlerPrinted | Program.cs:1276-1285 | a printed handler is a video handler exactly when its type is vide |
| Mp4.MediaPrinted | Program.cs:1263-1297 | a printed media box makes a video track exactly when its last handler was printed with type vide |
| Mp4.TrackPrinted | Program.cs:1224-1261 | a printed track has the kind of its last handler and the width and height its last header was printed with |
| Mp4.MoviePrinted | Program.cs:1164-1222 | parsing a printed box tree gives the duration, timescale, sizes and handlers it was printed from, for every nesting, order, size form, record version and payload |
| Mp4.MovieSays | Program.cs:1164-1222 | what a tree says from its fields alone: with q * timescale = duration, and width and height those of the last video track, in 65536ths rounded down |
| Mp4.ParsePrinted | Program.cs:1150-1222 | the parser run on a whole printed file answers with the duration over timescale of the last printed movie header and the size of the last printed video track with a header |

## Left out

- File and process I/O, IMAPI, toolchain discovery, header text generation, the SDK and the plugins: plumbing without properties of its own.
- ISO 9660 and El Torito images, PE headers, sample bitmaps, the default cursor and VGA quantisation: fixed constants or floating point.
- The remaining edk2 modules: thin wrappers over libraries that are not part of this model.
- Object identity in the directory tree: nodes are entries of a table the tree owns and are named by position, so aliasing of node objects is not modelled; StartCluster and ClusterCount are still updated in place in that table.
- ShortNames.Sanitize: upper-casing is ASCII, so letters whose upper-case form turns into an ASCII letter under .NET's rules are treated as dropped.
- ShortNames.NormalizeFile: the drive-letter colon that Path.GetFileName also cuts at on Windows is treated as an ordinary, dropped character.
- Glyphs, fonts and the icon: text and images are given as lists of blended pixels; how a glyph list arises from the font tables is not modelled, and labels must lie inside their buttons.
- PS/2 port handshakes, busy waits and timing: the controller is an arbitrary stream of bytes with a mouse or keyboard flag.
- KernelLoop.Run: the endless loop is any finite number of iterations; the invariant is claimed only with a shadow distinct from the framebuffer, as the self-copy erases nothing otherwise (KernelLoop.EraseCursor says so).
- Ps2Mouse.UpdateCursorFromPs2Mouse: PacketCount is the code's own count, which skips polls whose movements cancel; it is not claimed to count all packets.
- 32-bit wrap-around of sizes, offsets and pixel arithmetic, and .NET's limit on array sizes: integers are unbounded, and screen, file and log sizes are taken to be within range.
- Surfaces.CopyPixels32: 64-bit accesses are one load and one store in program order; whether the addresses of a call are aligned is arbitrary at every call.
- BootMachine.EncodingDecodes: the machine decodes the instructions of the two boot programs and no others; no hardware interrupt arrives before the halt, and of the BIOS only the disk read, the mode with its cleared screen and the appended teletype character are modelled. A failed read is one of a damaged sector, transfers nothing, and fails again when repeated.
- BootFloppy.BootShowsImage: how the screen turns palette and pixels into light is not modelled, nor is the quantisation that makes the image.
- BootFloppy.BootLoadsImage: not claimed for more than 128 sectors, where the 16-bit buffer offset wraps, nor for an empty image, where LOOP counts from zero; CS is 0 at reset.
- BootFloppy.BuildFloppy: the splash image and its packing into sectors are the input; the files written beside the floppy are not modelled.
- X64Assembler.Assembler.Emit: immediates outside 0..255 of SubRsp and AddRsp, which throw, are excluded by the type.
- TpmEventLog.EntriesBuilt: stated for logs without misread entries; the dump is modelled by the records it visits, not by the text it prints, and the HOB list is a list of blocks with a limit on their total size.
- MemorySplit.HobList.MemoryPeim: MMU set-up and the memory type HOB after the split are not modelled.
- Bmp.Load: images whose pixel count or row size passes 2^31 are not modelled, nor is a full 32-bit colour mask, for which the code divides by zero.
- Mp4.ParsePrinted: a movie, track or handler box that is too short for its fields is parsed by the walk but is not among the printed trees.
- Mp4.Reader.ParseBoxRange: durations are exact quotients instead of doubles; box ends are mathematical integers, so a 64-bit size that overflows a position is refused like any that leaves its parent; how far a name that is not ASCII moves the reader is arbitrary.
