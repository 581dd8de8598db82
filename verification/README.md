# jor1k: verified models of the system's own C code

Dafny models of the C programs and kernel patches that the OpenRISC Linux image of jor1k is built
from, with proofs of what they compute and keep.

| files | component |
|---|---|
| `StarfieldProtocol`, `StarfieldFade`, `StarfieldStars` | the threaded starfield demo: the semaphore protocol between main and the fading workers with its shutdown by signal, the in-place fade and its split into strips, and the motion of the stars |
| `FsPaths`, `FsInodes`, `FsArchive`, `FsSerialize`, `FsHeader`, `FsTrees`, `FsPrint`, `FsWalk` | the converter (`tools/fs2xml.c`) from tar archives to a filesystem description: splitting paths, merging headers into the inode table, scanning the archive, and printing the tree as XML and JSON |
| `SystimerPcm` | the system timer of the dummy sound driver, over wrapping 32-bit clock and counters |
| `TlbRefill` | the software walk of the page tables that QEMU does on a TLB miss, and the direct-mapped cache it fills |
| `PopCount` | the HAKMEM 169 bit count |
| `Bmp` | saving and loading bitmaps with one- and two-byte pixels |
| `Yuv` | conversion of a bitmap to planar YUV 4:2:0 with lookup tables |
| `ExtensionList`, `ExtensionLines` | splitting, word-wrapping and searching lists of OpenGL extension names |
| `Penguins` | the penguins of the DirectFB viewer: a linked list, batched drawing, movement into formation |
| `Arithmetic`, `Options` | shared helpers |

State that the programs update in place is a class or an array here, and its methods are proved
against functions on values; the properties are lemmas about those functions.

Some properties that one would expect are false of the code. Each has a lemma with the exact condition
under which it does hold:

- The starfield divides by depth. It never divides by 0 if and only if no initial star is doomed, which
  depends on the table of random numbers; entry 89 of the program's own table dooms star 89 in the
  first pass (`NeverDividesByZero`, `FromInitialStars`, `FirstPassDividesByZero`).
- The strips fade every row with stars, with four threads, if and only if the height is a multiple of
  four (`StarRowsAreFaded`).
- The archive scan rounds the end of the data down, not up as its comment says. It finds exactly the
  members if and only if no last partial block of data looks like a header (`ScanIsExact`); `FileFoolsScan`
  is a file that fools it.
- The archive scan does not always end: a negative size field can lead it back. It never ends if and only
  if it comes twice to a header whose negative size leads back into the buffer (`ScanNeverEnds`); if it comes
  to none, it ends in as many turns as there are blocks (`ScanEnds`). Where no earlier block leads past such
  a header, its size decides (`ScanHangs`); `TwoBlocksHang` is a buffer of two blocks that makes it go to
  and fro.
- A name that starts with a dot loses its first two characters, also when the second is no slash
  (`DottedLosesTwo`).
- An archive is merged as a whole if and only if every header with a new path has a known type, a target if
  it is a link, and the path above it in an earlier header (`ArchiveMerges`).
- A full path leads back to its inode if and only if the name of the inode is not empty
  (`FullPathResolves`); two headers can make such a name (`EmptyName`).
- A new inode's parent is a directory if and only if the header's directory is one (`MergeKeepsDirParents`),
  and a file can be in its place (`FileAsParent`). The printed tree shows every path once if and only if the
  archive's first headers are well-formed (`ArchiveIsPrinted`).
- The sound clock counts exactly the time it ran if and only if ticks counted while it stood make up for
  running ticks that no update saw before a stop (`CountsRunningTime`).
- The file type of an inode is that of its header if and only if the mode field brings no other type
  bits (`KindOfFilled`).
- The size fields of a saved bitmap are right if and only if the width is even or there are no rows
  (`SizeFieldsAreRight`), although its rows are always aligned to four bytes as its comment says
  (`RowsAreAligned`). The memory check is modulo 2^29 pixels with 32-bit sizes (`MemoryCheck`).
- A wrapped list keeps the margin if and only if no name is longer than 75 (`WrappedFitsMargin`).
- The search for an extension accepts the ends of longer names and skips over some names that overlap
  themselves. It finds a name if and only if the name ends a listed one where no earlier occurrence hides it
  (`SupportedMeansUnhidden`), and so answers rightly under an exact condition (`AnswersMembership`).
- Removing all penguins leaves the population count as it was, so the list is consistent afterwards if
  and only if it was empty before (`DestroyAllPenguins`).

## Model

| member | source | states |
|---|---|---|
| StarfieldProtocol.StepKeepsInv | patches/code/starfield/main.c:22-41 | every step of main, a worker or the signal keeps the joint invariant of program counters, semaphores and counts |
| StarfieldProtocol.RunKeepsInv | patches/code/starfield/main.c:109-132 | so does every run, under every schedule |
| StarfieldProtocol.RoundsAreLockstep | patches/code/starfield/main.c:116-127 | until shutdown the semaphores are binary, a worker has done as many fades as it was released for or one less, two workers are at most two fades apart, and main draws five times a round |
| StarfieldProtocol.ShutdownIsSafe | patches/code/starfield/main.c:129-132 | over the whole life a worker fades at most once more than it was released, and after main has joined all no worker can step |
| StarfieldProtocol.DeadlockFree | patches/code/starfield/main.c:28-132 | in every reachable state before main ends, main or a worker can step |
| StarfieldProtocol.FinalPostTakenOnce | patches/code/starfield/main.c:31-40 | once main has taken the final post of a worker that ended, it takes no other from it |
| StarfieldProtocol.ShutdownIsBounded | patches/code/starfield/main.c:116-132 | after the signal every schedule has at most as many thread steps as a measure of the state |
| StarfieldProtocol.RunningUntilSignal | patches/code/starfield/main.c:22-26 | after any run the flag is set iff it was and no signal came |
| StarfieldProtocol.SignalEndsProgram | patches/code/starfield/main.c:22-132 | in any run from the start, behind a signal main and the workers take at most 10 n + 3 more steps |
| StarfieldProtocol.StuckMeansJoined | patches/code/starfield/main.c:129-132 | a reachable state with no thread step has main finished, the signal seen and every worker joined |
| StarfieldProtocol.WorkersYieldToMain | patches/code/starfield/main.c:123-126 | workers alone run boundedly long, and then main can step: no fairness is assumed |
| StarfieldProtocol.Program.ExitProg | patches/code/starfield/main.c:22-26 | the signal handler clears the flag, does the signal step and keeps the invariant |
| StarfieldProtocol.Program.WorkerStep | patches/code/starfield/main.c:28-41 | the thread's code on the semaphores does one worker step and keeps the invariant |
| StarfieldProtocol.Program.MainStep | patches/code/starfield/main.c:109-132 | the code of main does one main step and keeps the invariant |
| StarfieldFade.FadedUnique | patches/code/starfield/fader.c:3-21 | the description of a faded frame, in which left and above are new and right and below are old, determines the frame |
| StarfieldFade.Fade | patches/code/starfield/fader.c:3-21 | the in-place raster pass gives that frame, and leaves borders and everything outside alone |
| StarfieldFade.FadedIsQuarter | patches/code/starfield/fader.c:10-16 | every inner pixel is a quarter of the sum of left and above, faded, and right and below, not yet faded, less one, and 0 where that is below 1 |
| StarfieldFade.FadedKeepsRest | patches/code/starfield/fader.c:7-20 | the first and last row and column of the picture, and all outside, are as before |
| StarfieldFade.StripFits | patches/code/starfield/main.c:34-36 | every strip lies inside the frame, for every number of threads and every height of at least as many rows |
| StarfieldFade.StripsDisjoint | patches/code/starfield/main.c:34-36 | no two workers write the same pixel |
| StarfieldFade.StripsTile | patches/code/starfield/main.c:34-36 | together they write exactly the inner pixels of one picture |
| StarfieldFade.FadeStrips | patches/code/starfield/main.c:28-41 | fading the strips in order gives the frame that one call over the whole picture gives |
| StarfieldFade.StarRowsAreFaded | patches/code/starfield/main.c:34-36 | every row with stars is faded iff the rest of the height by the number of threads is small enough; with four threads, iff it is 0 |
| StarfieldFade.RoundDims | patches/code/starfield/fader.c:10-16 | a round of all workers, mixed pixel by pixel in any order, darkens a frame with a dark border by at least one step |
| StarfieldFade.TrailsFadeOut | patches/code/starfield/fader.c:7-20 | after 255 such rounds the frame is black |
| StarfieldStars.FreshStarsVisible | patches/code/starfield/starfield.c:107-132 | all fresh stars are visible iff the resolution is at least 262 |
| StarfieldStars.RecursesOnce | patches/code/starfield/starfield.c:111-116 | from that resolution on a replaced star is on the screen, so the recursion stops at once |
| StarfieldStars.DrawnInPerspective | patches/code/starfield/starfield.c:107-122 | a star on the screen is drawn at 256 times its place over its depth from the middle, cut towards it, is brighter by one for every 24 it is nearer, and comes 24 nearer |
| StarfieldStars.ReplacedFromTable | patches/code/starfield/starfield.c:105-132 | any other is replaced from the table, drawn at its entries from the middle with brightness 86, and left at depth 4048 |
| StarfieldStars.InitialPlaces | patches/code/starfield/starfield.c:145-150 | the first stars have 16 times their entries for place and depth, from -16 to 4064 |
| StarfieldStars.DrawsInside | patches/code/starfield/starfield.c:118-120 | every write is inside the frame, and inside its inner part |
| StarfieldStars.DrawingKeepsBorderDark | patches/code/starfield/starfield.c:118-120 | with a height that is a multiple of four, drawing keeps the border dark that fading relies on |
| StarfieldStars.UpdateKeepsAligned | patches/code/starfield/starfield.c:105-132 | depths that fresh stars pass through are never 0 and are kept by every update |
| StarfieldStars.DoomedStays | patches/code/starfield/starfield.c:105-123 | a doomed star only comes nearer, and stays doomed |
| StarfieldStars.SafeStays | patches/code/starfield/starfield.c:105-132 | any other star is not at depth 0 and stays safe, moved or replaced |
| StarfieldStars.NeverDividesByZero | patches/code/starfield/starfield.c:105-159 | no pass of any run divides by 0 iff no star is doomed at the start |
| StarfieldStars.InitialIsDoomed | patches/code/starfield/starfield.c:145-150 | an initial star is doomed iff its table entry + 127 is a multiple of three, not negative, and 0 or visible at depth 24 |
| StarfieldStars.FromInitialStars | patches/code/starfield/starfield.c:134-159 | the whole program never divides by 0 iff no table entry in use is such |
| StarfieldStars.FirstPassDividesByZero | patches/code/starfield/rndtable.h:3-4 | with -127 in place 89 of the table, the first pass does divide by 0 |
| StarfieldStars.PassKeepsBorderDark | patches/code/starfield/starfield.c:153-159 | a whole pass over the stars keeps the border dark |
| StarfieldStars.Field.InitStarfield | patches/code/starfield/starfield.c:134-151 | black frame, and every star from the table with its random depth |
| StarfieldStars.Field.CreateStar | patches/code/starfield/starfield.c:125-132 | replaces one star by the next fresh one |
| StarfieldStars.Field.UpdateStar | patches/code/starfield/starfield.c:105-123 | one star projected, replaced if off the screen, drawn and moved; where it was replaced, drawn and moved twice |
| StarfieldStars.Field.CalcStarfield | patches/code/starfield/starfield.c:153-159 | every star updated once, in order, without dividing by 0 |
| FsPaths.Split | tools/fs2xml.c:123-142 | the scan gives the pieces between slashes behind the leading "/" or "./", without an empty last one |
| FsPaths.ComponentsOfAbsolute | tools/fs2xml.c:123-142 | splitting a full path gives back its components, except an empty last one |
| FsPaths.ComponentsOfDotted | tools/fs2xml.c:128-129 | a path with a dot before its first slash has the same components |
| FsPaths.DottedLosesTwo | tools/fs2xml.c:129-129 | behind a dot, any second character is skipped like a slash, and the rest gives the components |
| FsPaths.AbsoluteInjective | tools/fs2xml.c:56-71 | paths of components without slashes with the same text are the same |
| FsInodes.FileSystem.GetFullPath | tools/fs2xml.c:56-71 | the path put together on the way up is the root and the names from the top down |
| FsInodes.FileSystem.IsEmpty | tools/fs2xml.c:144-152 | true iff no inode has this parent |
| FsInodes.FileSystem.SearchInode | tools/fs2xml.c:154-166 | the first inode with the name and parent, or -1 iff there is none |
| FsInodes.FileSystem.FindDirectory | tools/fs2xml.c:177-186 | the walk succeeds iff the path resolves, and then gives its inode |
| FsInodes.FileSystem.Fill | tools/fs2xml.c:200-252 | the verdict and the fields of the new inode for every type flag |
| FsInodes.FileSystem.MergeFile | tools/fs2xml.c:169-255 | adds the inode, leaves the table, or fails, as the merge on values says |
| FsInodes.MergeKeepsForest | tools/fs2xml.c:169-255 | every merge keeps the parent links a forest in which siblings differ in name |
| FsInodes.FullPathResolves | tools/fs2xml.c:56-71 | the full path, split and followed, leads back to the inode iff its name is not empty |
| FsInodes.EmptyName | tools/fs2xml.c:123-142 | the headers "a/" and "a//" are merged into an inode with an empty name, to which its full path does not lead |
| FsInodes.FullPathInjective | tools/fs2xml.c:56-71 | two inodes never have the same full path |
| FsInodes.NamesOfResolved | tools/fs2xml.c:154-186 | what a path resolves to is the inode with exactly these components |
| FsInodes.PresentIsKept | tools/fs2xml.c:187-197 | a merge answers that the path exists iff it resolves, and changes the table iff it adds |
| FsInodes.MergeTwice | tools/fs2xml.c:169-255 | merging an archive a second time changes nothing |
| FsInodes.ArchiveContents | tools/fs2xml.c:169-255 | from the empty table, the inodes are the distinct paths of the archive, each filled from the first header with its path |
| FsInodes.ArchiveMerges | tools/fs2xml.c:169-255 | the merge of an archive succeeds iff every header either has a path seen before, or a known type, a target if a link, and a path above it seen before |
| FsInodes.InodeKeepsHeader | tools/fs2xml.c:200-252 | field by field what an inode has of the first header with its path: name, permissions, size, time, owner if 0 or 1000, contents of a file, target of a link |
| FsInodes.OrIsBitwise | tools/fs2xml.c:221-232 | the file type bits are or-ed bit by bit |
| FsInodes.KindOfFilled | tools/fs2xml.c:218-252 | the type of the inode is that of the type flag iff the mode field brings no other type bits |
| FsInodes.MergeKeepsDirParents | tools/fs2xml.c:177-186 | an addition keeps all parents directories iff the directory it adds to is one |
| FsInodes.FileAsParent | tools/fs2xml.c:177-186 | a file "a" and a header "a/b" are merged into a table with a parent that is no directory |
| FsArchive.SkipData | tools/fs2xml.c:279-282 | the position after the data, rounded down to a block |
| FsArchive.UntarBlock | tools/fs2xml.c:262-283 | one turn of the scan skips a block, or merges its header and skips its data |
| FsArchive.Untar | tools/fs2xml.c:258-284 | the scan merges exactly the headers found, in order, and stops where a merge fails |
| FsArchive.BlanksAreSkipped | tools/fs2xml.c:275-275 | leading blanks of a number field do not count |
| FsArchive.WrapIsCongruent | tools/fs2xml.c:275-275 | a number too large for an int is cut to the int with the same low 32 bits |
| FsArchive.ScanTurn | tools/fs2xml.c:262-283 | what one turn hands over, and that the rest is what the next position hands over |
| FsArchive.ScanHangs | tools/fs2xml.c:262-283 | where no block from i on leads past block k, the scan from i stays between i and k for ever iff k is a header with a negative size that leads back no farther than i |
| FsArchive.ScanEnds | tools/fs2xml.c:262-283 | a scan that comes to no header leading back leaves the buffer in as many turns as there are blocks |
| FsArchive.ScanNeverEnds | tools/fs2xml.c:262-283 | the scan of any buffer never leaves it iff it comes twice to a header with a negative size that leads back into it |
| FsArchive.TwoBlocksHang | tools/fs2xml.c:275-282 | a plain block and a header with the size field -2000 make the scan go to and fro for ever |
| FsArchive.ReadableIsVisited | tools/fs2xml.c:262-283 | what Untar relies on, in whole blocks, is that every block the scan comes to can be read |
| FsSerialize.ScanIsExact | tools/fs2xml.c:258-284 | of any archive the scan hands over exactly the headers iff no last partial block of data looks like a header |
| FsSerialize.ScanIsFooled | tools/fs2xml.c:279-282 | a last partial block that looks like a header makes the scan differ |
| FsSerialize.ShortRestIsPlain | tools/fs2xml.c:279-282 | a rest of less than 262 bytes with zero padding never looks like one |
| FsHeader.FileFoolsScan | tools/fs2xml.c:264-282 | a file of 262 bytes that end in the magic, archived alone, is not scanned as the one member it is |
| FsHeader.DecodeEncode | tools/fs2xml.c:35-54 | a header written in the layout of the archive format is read back as it was, all fields |
| FsHeader.ArchiveRoundTrip | tools/fs2xml.c:258-284 | writing any list of headers with their data and scanning it gives the list, if no data end in the likeness of a header |
| FsTrees.PreorderIsIds | tools/fs2xml.c:297-346 | the trees show exactly the inodes listed, in that order |
| FsTrees.NodesShowInodes | tools/fs2xml.c:297-346 | node by node what is shown of an inode: name, mode, type, and what its type has of size, flags, owner and target |
| FsTrees.PathsAreNames | tools/fs2xml.c:297-346 | along the nodes down to a node lie the names of its full path: the nesting is that of the table |
| FsTrees.ListedOnce | tools/fs2xml.c:297-346 | an inode is listed once if the way up to the parent goes through directories, and otherwise not |
| FsTrees.TreeIsComplete | tools/fs2xml.c:297-346 | every inode is listed exactly once iff all types are known and all parents are directories |
| FsPrint.AttrsRoundTrip | tools/fs2xml.c:307-338 | reading the printed attributes, defaults left out, gives the inode's view back |
| FsPrint.AttrsAreTrue | tools/fs2xml.c:307-338 | every attribute printed is that of the node, and no default is printed |
| FsPrint.XmlRoundTrip | tools/fs2xml.c:297-346 | the printed XML reads back as exactly the tree |
| FsPrint.JsonRoundTrip | tools/fs2xml.c:365-432 | the printed JSON reads back as exactly the tree, with the commas and brackets in place |
| FsPrint.BelowIsProper | tools/fs2xml.c:297-346 | the trees of every table meet what both round trips need |
| FsWalk.WalkXML | tools/fs2xml.c:297-346 | the recursive printer appends exactly the trees below the parent |
| FsWalk.WalkJSON | tools/fs2xml.c:365-432 | so does the JSON printer, and it gives up iff it meets an unknown type |
| FsWalk.CountChildren | tools/fs2xml.c:369-375 | the number of children, which decides where commas stand |
| FsWalk.TableIsWellFormed | tools/fs2xml.c:169-255 | the table has known types only and directories as parents iff the archive is well-formed: the first header of each path has the bits of a known type, and that of a path above another those of a directory |
| FsWalk.ArchiveIsPrinted | tools/fs2xml.c:258-432 | from an archive to both files: both read back as one tree, each node lies on its path and is as the first header with that path says, and every distinct path is shown once iff the archive is well-formed; then the JSON printer does not give up |
| SystimerPcm.PointerIsFrames | patches/linux/dummy_sound.c:320-331 | the reported position is the number of whole frames played, modulo the buffer |
| SystimerPcm.AdvancePosition | patches/linux/dummy_sound.c:257-260 | the ring position after any advance is the total modulo the buffer |
| SystimerPcm.AdvancePeriod | patches/linux/dummy_sound.c:261-265 | the countdown and the period count after any advance are those of the total |
| SystimerPcm.DueIsFirst | patches/linux/dummy_sound.c:242-247 | the expiry is the first tick at which a period is completed |
| SystimerPcm.DueIsKept | patches/linux/dummy_sound.c:242-266 | updates before the expiry leave it where it would be set now |
| SystimerPcm.OnTimeIsOnePeriod | patches/linux/dummy_sound.c:302-318 | handled on time, the timer reports one period, if a tick is no longer than a period |
| SystimerPcm.Pcm.Prepare | patches/linux/dummy_sound.c:287-300 | starts from nothing played and nothing reported |
| SystimerPcm.Pcm.Update | patches/linux/dummy_sound.c:249-266 | both counters catch up with the ticks passed, across wraps of the clock, whether it runs or not |
| SystimerPcm.Pcm.CatchUpPosition | patches/linux/dummy_sound.c:258-260 | the first loop reduces the position modulo the buffer |
| SystimerPcm.Pcm.CatchUpPeriods | patches/linux/dummy_sound.c:261-265 | the second loop counts the periods completed and leaves the rest of the next |
| SystimerPcm.Pcm.Rearm | patches/linux/dummy_sound.c:242-247 | sets the timer to the due time of the current period |
| SystimerPcm.Pcm.Start | patches/linux/dummy_sound.c:268-276 | arms the timer at this tick, and counts none of the ticks since the last update |
| SystimerPcm.Pcm.Stop | patches/linux/dummy_sound.c:278-285 | disarms it and counts nothing; ticks it ran since the last update are missing from then on |
| SystimerPcm.Pcm.Callback | patches/linux/dummy_sound.c:302-318 | always has at least one period to report, and afterwards every completed period has been reported once |
| SystimerPcm.Pcm.Pointer | patches/linux/dummy_sound.c:320-331 | reports whole frames modulo the buffer and keeps the armed timer right |
| SystimerPcm.Pcm.CountsRunningTime | patches/linux/dummy_sound.c:249-285 | what was counted is the time the clock ran iff ticks counted while it stood make up for running ticks missed |
| SystimerPcm.Pcm.ExpiryIsExact | patches/linux/dummy_sound.c:242-266 | while armed, a further period is complete iff updates have reached the expiry |
| PopCount.FirstLine | patches/elfutils-portability.patch:497-497 | the first line gives the bit counts of the octal digits, without borrow, for words of any length |
| PopCount.SumOfCounts | patches/elfutils-portability.patch:491-499 | the digit counts add up to the one bits of the number |
| PopCount.SecondLine | patches/elfutils-portability.patch:498-498 | adding neighbours and masking leaves the sum of the counts modulo 63, for any odd number of digits |
| PopCount.EveryNumberIsAWord | patches/elfutils-portability.patch:494-495 | every 32-bit number is one of the words |
| PopCount.PopcountIsOneBits | patches/elfutils-portability.patch:494-499 | for every 32-bit word the formula is the number of its one bits |
| Bmp.PackUnpacked | patches/code/fbview/framebuffer.c:438-480 | taking a pixel apart and packing it sets its high bit and changes nothing else |
| Bmp.OneByteLayout | patches/code/fbview/framebuffer.c:441-470 | three bits of red, three of green and two of blue, and what is kept of a colour |
| Bmp.TwoByteLayout | patches/code/fbview/framebuffer.c:444-447 | the five bits of each colour and the high bit, by their places |
| Bmp.TwoByteColour | patches/code/fbview/framebuffer.c:444-474 | packing and taking apart keeps the high five bits of every colour |
| Bmp.FieldReadsBack | patches/code/fbview/ds_bmp.c:97-129 | every header field written is read back at its offset |
| Bmp.SaveRows | patches/code/fbview/ds_bmp.c:266-275 | the loops write the rows from the bottom up, with padding |
| Bmp.Save | patches/code/fbview/ds_bmp.c:198-279 | the whole file, header and rows |
| Bmp.LoadRows | patches/code/fbview/ds_bmp.c:165-182 | the loops fill the pixmap with the image in the file, over every pixel |
| Bmp.Load | patches/code/fbview/ds_bmp.c:82-186 | status and picture for every file: short, foreign, compressed, too large, other depths |
| Bmp.LoadingFails | patches/code/fbview/ds_bmp.c:97-149 | loading fails iff the file is short, does not start with BM, is compressed or too large, or has other than 24 or 32 bits, in terms of its bytes |
| Bmp.HeaderConstants | patches/code/fbview/ds_bmp.c:218-235 | the constants of the header of a saved picture, by their places |
| Bmp.SavedPixelAt | patches/code/fbview/ds_bmp.c:266-275 | where the bytes of a pixel stand in the file, blue, green and red, rows from the bottom up |
| Bmp.LoadedPixelAt | patches/code/fbview/ds_bmp.c:165-182 | from which bytes a pixel is loaded, with 24 and with 32 bits per pixel |
| Bmp.SaveThenLoad | patches/code/fbview/ds_bmp.c:82-279 | a saved picture is loaded pixel for pixel, high bits set, iff the memory check lets it pass |
| Bmp.SmallPicturesComeBack | patches/code/fbview/ds_bmp.c:139-143 | up to 4 MiB of pixels it does, with 32- and 64-bit sizes |
| Bmp.SavedAgain | patches/code/fbview/ds_bmp.c:198-279 | saving the loaded picture gives the same file |
| Bmp.MemoryCheck | patches/code/fbview/ds_bmp.c:139-139 | the check compares the number of pixels with 4 MiB: exactly with 64-bit sizes, modulo 2^29 with 32-bit ones |
| Bmp.LargePicturePasses | patches/code/fbview/ds_bmp.c:139-139 | a picture far over the limit that passes with 32-bit sizes |
| Bmp.RowsAreAligned | patches/code/fbview/ds_bmp.c:266-275 | every written row is a multiple of four bytes long |
| Bmp.SizeFieldsAreRight | patches/code/fbview/ds_bmp.c:216-231 | the two size fields are the real sizes iff the width is even or there are no rows |
| Yuv.FillTable | patches/code/fbview/rgb2yuv420.c:115-122 | a table holds the truncated product for every byte |
| Yuv.Tables.InitLookupTable | patches/code/fbview/rgb2yuv420.c:111-123 | afterwards the tables compute the three conversions |
| Yuv.Tables.Components | patches/code/fbview/rgb2yuv420.c:62-64 | the table sums of a pixel are the three conversions |
| Yuv.GreyIsNeutral | patches/code/fbview/rgb2yuv420.c:62-64 | grey pixels have neutral chroma, 128 each |
| Yuv.LumaIsRounded | patches/code/fbview/rgb2yuv420.c:62-62 | luma is 16 + (65.481 r + 128.553 g + 24.966 b) / 256 rounded down, or one less where that is barely reached |
| Yuv.CbIsRounded | patches/code/fbview/rgb2yuv420.c:63-63 | Cb is 128 + (112 b - 37.797 r - 74.203 g) / 256 rounded down, or one more where that is barely missed |
| Yuv.CrIsRounded | patches/code/fbview/rgb2yuv420.c:64-64 | Cr is 128 + (112 r - 93.786 g - 18.214 b) / 256 in the same way |
| Yuv.OutputLuma | patches/code/fbview/rgb2yuv420.c:53-70 | every luma sample of the output, from its pixel of the bitmap |
| Yuv.OutputChroma | patches/code/fbview/rgb2yuv420.c:53-106 | every Cb and Cr sample of the output, from the four pixels of its block |
| Yuv.ConvertRows | patches/code/fbview/rgb2yuv420.c:55-70 | the first loops write the three whole planes and nothing else |
| Yuv.PlaneIsFlipped | patches/code/fbview/rgb2yuv420.c:53-70 | row i of a plane is row y - 1 - i of the bitmap |
| Yuv.ReducePlanes | patches/code/fbview/rgb2yuv420.c:85-106 | the second loops write both reduced planes and nothing else |
| Yuv.SubIsAverage | patches/code/fbview/rgb2yuv420.c:85-106 | every reduced sample is the average of its block of four |
| Yuv.RGB2YUV420 | patches/code/fbview/rgb2yuv420.c:34-109 | the buffer holds luma and both reduced chroma planes, one after the other, and the rest is as before |
| Yuv.OutputRanges | patches/code/fbview/rgb2yuv420.c:62-64 | luma is from 16 to 234, chroma from 16 to 239 |
| ExtensionList.TokensAreMaximal | patches/MesaLib-10.2.6-add_xdemos-3.patch:200-244 | the names are exactly the maximal stretches without spaces |
| ExtensionList.CountNames | patches/MesaLib-10.2.6-add_xdemos-3.patch:200-207 | the first pass counts them |
| ExtensionList.CopyNames | patches/MesaLib-10.2.6-add_xdemos-3.patch:209-244 | the second pass fills the array exactly, so its assertions hold |
| ExtensionList.PrintNames | patches/MesaLib-10.2.6-add_xdemos-3.patch:249-276 | the third pass prints the wrapped layout |
| ExtensionList.PrintExtensionList | patches/MesaLib-10.2.6-add_xdemos-3.patch:188-282 | all three together, and nothing for an empty list |
| ExtensionLines.PrintsColumn | patches/MesaLib-10.2.6-add_xdemos-3.patch:251-276 | in single-line mode every name stands on a line of its own, indented by four |
| ExtensionLines.PrintsFilledLines | patches/MesaLib-10.2.6-add_xdemos-3.patch:250-276 | wrapped, the names stand in order on indented lines, commas between, every line filled until the next name would pass column 79 with three places for each name before it |
| ExtensionList.PrintedReadsBack | patches/MesaLib-10.2.6-add_xdemos-3.patch:249-276 | what is printed reads back as the names, wrapped or one per line |
| ExtensionList.WrappedFitsMargin | patches/MesaLib-10.2.6-add_xdemos-3.patch:249-276 | no name ends past column 79 iff none is longer than 75 |
| ExtensionList.JoinedSplits | patches/MesaLib-10.2.6-add_xdemos-3.patch:290-317 | the joined list splits into its names iff they are nonempty and without spaces |
| ExtensionList.BuildCoreProfileExtensionList | patches/MesaLib-10.2.6-add_xdemos-3.patch:290-317 | the buffer is filled exactly, up to its NUL |
| ExtensionList.ExtensionSupported | patches/MesaLib-10.2.6-add_xdemos-3.patch:320-342 | the loop answers yes iff one of its probes ends a name, and repeats for ever exactly for an empty name in a list that starts with another character than a space |
| ExtensionList.TokenIsSupported | patches/MesaLib-10.2.6-add_xdemos-3.patch:320-342 | a listed name is never missed |
| ExtensionList.SupportedIsSuffix | patches/MesaLib-10.2.6-add_xdemos-3.patch:320-342 | only the end of a listed name is ever found |
| ExtensionList.SupportedMeansUnhidden | patches/MesaLib-10.2.6-add_xdemos-3.patch:320-342 | any name but the empty one is found iff it stands at the end of a name, with no occurrence between there and the last multiple of its length before |
| ExtensionList.SupportedMeansSuffix | patches/MesaLib-10.2.6-add_xdemos-3.patch:320-342 | for names that do not overlap themselves, yes iff some listed name ends in it |
| ExtensionList.RightAnswer | patches/MesaLib-10.2.6-add_xdemos-3.patch:320-342 | every name without spaces is answered rightly if it is listed or no longer listed name ends in it |
| ExtensionList.AnswersMembership | patches/MesaLib-10.2.6-add_xdemos-3.patch:320-342 | any name without spaces is answered rightly iff it is listed or no longer listed name ends in it unhidden |
| ExtensionList.UnborderedMembership | patches/MesaLib-10.2.6-add_xdemos-3.patch:320-342 | a name that does not overlap itself is answered rightly iff it is listed or no longer listed name ends in it |
| ExtensionList.SuffixIsAccepted | patches/MesaLib-10.2.6-add_xdemos-3.patch:320-342 | a name that is only the end of a listed one and is accepted |
| ExtensionList.OverlapIsSkipped | patches/MesaLib-10.2.6-add_xdemos-3.patch:333-336 | a name that overlaps itself and is skipped over |
| Penguins.Penguin.Move | patches/code/fbview2/df_andi.c:255-323 | one penguin's move: aim, step, clip, animate |
| Penguins.Flock.MovePenguins | patches/code/fbview2/df_andi.c:250-327 | every penguin of the list is moved once, and the list stays |
| Penguins.FacesItsWay | patches/code/fbview2/df_andi.c:278-302 | on its way a penguin looks up or down while it has steps to go that way, and then left or right |
| Penguins.WalkersAim | patches/code/fbview2/df_andi.c:262-268 | a walking penguin that is there gets an aim from -50 to 49 on both axes |
| Penguins.EveryAim | patches/code/fbview2/df_andi.c:266-267 | every such aim comes from some random numbers |
| Penguins.FormationJitters | patches/code/fbview2/df_andi.c:269-277 | a penguin of a formation that is there moves by at most one pixel and looks down |
| Penguins.StaysOnScreen | patches/code/fbview2/df_andi.c:304-315 | after every move the penguin is wholly on the screen |
| Penguins.DrawnRingTurns | patches/code/fbview2/df_andi.c:317-323 | only the ring of the frame that is drawn turns, by one frame |
| Penguins.TurnsEverySixth | patches/code/fbview2/df_andi.c:317-323 | from its start on, a penguin's rings turn once in six moves |
| Penguins.StartsInTheMiddle | patches/code/fbview2/df_andi.c:155-167 | a new penguin is in the middle of the screen, walks, is at its aim and looks down |
| Penguins.Flock.SpawnPenguin | patches/code/fbview2/df_andi.c:151-180 | a new penguin at the end of the list, the others as they were |
| Penguins.Flock.SpawnPenguins | patches/code/fbview2/df_andi.c:209-213 | that many new penguins at the end of the list |
| Penguins.Flock.DestroyPenguin | patches/code/fbview2/df_andi.c:185-194 | the first one removed, if any |
| Penguins.Flock.DestroyPenguins | patches/code/fbview2/df_andi.c:199-203 | that many removed from the front, or all |
| Penguins.Flock.Batch | patches/code/fbview2/df_andi.c:228-238 | at most 256 sprites from a penguin on, without running off the list |
| Penguins.Flock.DrawPenguins | patches/code/fbview2/df_andi.c:218-244 | the batches together are the whole list in order, and only the last is not full |
| Penguins.Flock.DestroyAllPenguins | patches/code/fbview2/df_andi.c:350-359 | empties the list, keeps the count, so the flock is consistent iff it was empty |
| Penguins.MarchIsStraight | patches/code/fbview2/df_andi.c:255-315 | whatever the random numbers, both axes go straight to the point, and the penguin does not jitter before both are there |
| Penguins.ArrivesNearPoint | patches/code/fbview2/df_andi.c:255-315 | after the longer axis' number of moves it is less than a step from its formation point |
| TlbRefill.FieldsAreTheAddress | patches/qemu-tlb.patch:105-109 | table offsets and page offset determine the address |
| TlbRefill.AddressIsItsFields | patches/qemu-tlb.patch:108-109 | the high eight bits and the next eleven are the offsets in the tables, in words of four bytes |
| TlbRefill.SharedSlot | patches/qemu-tlb.patch:105-106 | pages share a slot iff their numbers agree in the low seven bits |
| TlbRefill.ReadlIsBigEndian | patches/qemu-tlb.patch:56-67 | a word is read with its high byte at the lowest address |
| TlbRefill.WalkIsOfPage | patches/qemu-tlb.patch:115-130 | the walk depends on the page of the address only |
| TlbRefill.InsnFrameIsKept | patches/qemu-tlb.patch:132-139 | the translation has the frame of the table entry |
| TlbRefill.DataFrameIsKept | patches/qemu-tlb.patch:175-176 | the data translation has the frame of the table entry |
| TlbRefill.DataBitsAreKept | patches/qemu-tlb.patch:175-176 | below the frame a data translation has the permissions and cache bits of the entry, and nothing else |
| TlbRefill.InsnBitsAreKept | patches/qemu-tlb.patch:132-133 | an instruction translation has the cache bits of the entry, and besides them only those of execution |
| TlbRefill.ExecuteIsAnyAccess | patches/qemu-tlb.patch:135-138 | a page is executable iff the entry grants any access |
| TlbRefill.FilledIsRefill | patches/qemu-tlb.patch:139-142 | writing both registers refills the direct-mapped cache of the page walk |
| TlbRefill.RunKeepsSlots | patches/qemu-tlb.patch:102-182 | any run of refills from any entries keeps right slots right, and makes those it fills right |
| TlbRefill.HitsAreWalks | patches/qemu-tlb.patch:102-182 | a hit in such a slot is what the page tables say |
| TlbRefill.HitsAreInMemory | patches/qemu-tlb.patch:56-182 | with memory as bytes, such a hit is the walk of its big-endian words |
| TlbRefill.FillAnswers | patches/qemu-tlb.patch:102-182 | a refill answers its whole page and changes no answer of another slot |
| DirectMapped.RefillHits | patches/qemu-tlb.patch:139-142 | a successful refill makes its page hit, drops the one before, and changes nothing else |
| DirectMapped.RunKeepsLast | patches/qemu-tlb.patch:102-182 | a slot holds the last page a run brought into it, or what it held before |
| DirectMapped.RunIsCoherent | patches/qemu-tlb.patch:102-182 | runs keep slots coherent with the function cached, and make those they fill so |
| DirectMapped.HitsAreRight | patches/qemu-tlb.patch:102-182 | an answer from such a slot is the value of the function |
| TlbRefill.ExceptionsAre | patches/qemu-tlb.patch:115-171 | a miss without a table, a fault without a page in it, and none otherwise, each of its side |
| TlbRefill.Mmu.HwItlbFill | patches/qemu-tlb.patch:102-145 | exception and entries after an instruction miss, in every branch |
| TlbRefill.Mmu.HwDtlbFill | patches/qemu-tlb.patch:147-182 | exception and entries after a data miss, in every branch |
| TlbRefill.Mmu.RaiseNoMatch | patches/qemu-tlb.patch:185-212 | the side of the access is filled; an exception is recorded with the address exactly when the walk fails |
| TlbRefill.Mmu.HandleNoMatch | patches/qemu-tlb.patch:215-231 | the second lookup after a successful refill finds the translation of the walk |

## Left out

Starfield:
- StarfieldFade.StripFits: for heights of at least as many rows as threads; below that the program's unsigned strip offset wraps.
- Opening and mapping the frame buffer, palettes and messages; `pthread_create` and the semaphore calls are assumed to succeed, and `sem_wait` is not interrupted.
- `running` is read afresh at every loop head; a compiler may keep it in a register, as it is not volatile. Pixel reads and writes are single steps, and so are steps of the protocol.
- FadeStrips: states equality with one pass for the workers one after the other; for mixed orders RoundDims and TrailsFadeOut state only that brightness goes down.
- RecursesOnce, DrawsInside, PassKeepsBorderDark and what builds on them are for resolutions of at least 262; below that a fresh star may be off the screen, and the recursion is not modelled.
- Field.CalcStarfield: requires that no star is at depth 0, where the program divides by 0; NeverDividesByZero says when that never happens. The depths that init_starfield gives are part of it: a pass is defined up to the first division by 0.
- The entry 128 of the table of random numbers does not fit a signed char; the model takes a table of values from -128 to 127.

Archive converter:
- FsPaths.Split: does not model the fixed buffers for 12 components of 128 bytes; nor do paths of 1024 bytes; the capacity of the inode table is a parameter. An array of text fields without end mark reads on into the next field, up to the end of the block.
- FsInodes.FileSystem.MergeFile: requires room for one more inode and a name with at least one component. For names such as "./" the program reads a component that Split never wrote.
- FsArchive.Untar: requires room for the headers found, and the scan to stay inside the buffer and to go forward; ReadableIsVisited says what that means, and ScanNeverEnds and ScanHangs when a negative size makes it repeat. A jump before the buffer, and positions that wrap, are not followed.
- MergeFile does not look whether the parent it finds is a directory; MergeKeepsDirParents and TreeIsComplete say what that costs.
- FsHeader.DecodeEncode: for header fields that fit their columns; checksums and the fields behind the magic are not read by the program.
- FsWalk.ArchiveIsPrinted: for archives whose merge succeeds (ArchiveMerges); that the JSON printer does not give up is stated for well-formed ones only.
- Escaping of names in the output, indentation and line ends: the printed text is a sequence of tokens. Also WalkDir, hidden names, compression, load and source marks as they are computed, and reading and writing of files.

Sound timer:
- SystimerPcm.Pcm.Update: requires fewer units since the last update than fit a 32-bit word with the sizes added (NoWrap); beyond that the counters themselves wrap.
- Locks, the race of `del_timer` with a running callback, and registration with ALSA. Each callback is one step.

TLB:
- Lookup of an entry is defined from the layout of the match and translate registers; QEMU's own lookup is not part of this model. Permissions, `tlb_set_page` and the special register moves are left out.
- TlbRefill.HitsAreWalks: for tables and base registers that do not change during the run; memory is a function from addresses to words, and HitsAreInMemory ties it to bytes.

Bitmaps and YUV:
- Bmp: pixels of 3 and 4 bytes are left out, as are failures of `fwrite`, `malloc` and opening. A file is a sequence of bytes. The width of size_t is a parameter.
- Bmp.Load: a picture more than 32768 wide or high has status 2, Overflowing, where the 16-bit counters of the program do not reach its size.
- Bmp.Save: requires sizes up to 32768 for the same reason.
- Rendering, rotating and scaling of pixmaps.
- Yuv.FillTable: the products with float constants are exact rational products, rounded down; the rounding of floats is not modelled.
- Yuv.RGB2YUV420: requires even sizes, as 4:2:0 does; the bitmap is a sequence, since it is only read.

Extension lists:
- ExtensionList.PrintExtensionList: the order in which qsort leaves the names is a parameter that keeps their number; failures of malloc are left out.

Penguins:
- Animation frames are places in rings of nine; loading of pictures and of the formation is left out, as is the choice of destinations with its scaling in floats. The numbers of `myrand` are parameters.
- Penguins.ArrivesNearPoint: for a positive step and a formation point inside the screen.

Bit count:
- PopCount: a word is a sequence of octal digits; EveryNumberIsAWord ties it to 32-bit numbers.
