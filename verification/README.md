# Zeitlos, verified

Zeitlos is a small multitasking system: a kernel with a memory allocator, a
round-robin scheduler and message passing, a TCP and telnet client, a VT100
terminal, and a simulated GPU. This project models its stateful cores in Dafny
and proves what their comments promise.

Each core has the same shape. Value-level functions say what an operation does
to the state. A class with the original's fields and arrays does the same thing
statement by statement, and its methods are proved equal to those functions.
Lemmas then prove the properties, over every input, every run or every
interleaving. References that the code does not contain (the nearest pixels of
an ideal line, a per-pixel fill, one's complement sums, an endless sheet of
paper, a finite tree, the tree a sender sees through its own addresses, the
cells a control sequence names, the parts of a telnet stream) are defined
independently.

| file | models |
|---|---|
| Words.dfy, Framebuffer.dfy | 32-bit arithmetic; frame buffer words as 32 bits |
| Raster.dfy, Blit.dfy | line and rectangle units of sim/machine.c |
| Mem.dfy, PidReg.dfy, Kernel.dfy | sw/os/mem.c, sw/os/pidreg.c, sw/os/kernel.c |
| Mtu.dfy | address translation of rtl/mtu.v |
| Mailbox.dfy, Resolve.dfy, Sender.dfy, Message.dfy | sw/os/msg.c; what a payload means to its sender |
| Zobj.dfy | copying and comparing of sw/common/zobj.c |
| Port.dfy, Stream.dfy | sw/common/zport.c, sw/common/zstream.c |
| Gfx.dfy | shared blitter access of sw/common/zgfx.c |
| Vt100.dfy, Sequences.dfy, Line.dfy | sw/common/zvt100.c, from single bytes to control sequences; sw/common/zline.c |
| Checksum.dfy | checksums and headers of sw/apps/net/ip.c and sw/apps/net/tcp.c |
| Tcp.dfy, TcpClient.dfy, TcpPair.dfy | sw/apps/net/tcp.c: operations on values; the mutable control block; two ends over a network |
| Telnet.dfy | sw/apps/net/telnet.c |

Widths: sequence numbers, ticks, addresses, blitter registers and checksum
accumulators are 32 or 16 bits wide and wrap or are proved not to. Interrupt
masking is modelled as one uninterrupted step. Clocks, allocator results, the
outcome of a lower layer and other processes' traffic are parameters, so every
statement holds for all of them.

## What is false, and exactly when it holds

- A clipped fill is the per-pixel fill exactly when both `dst + size` fit 32
  bits or nothing of it can be on the screen
  (`Blit.ClippedFillIsPerPixelExactlyWhen`); any other one draws nothing
  (`Blit.WrappedFillDrawsNothing`, and `Blit.WrappedRectangleIsNotDrawn` for one
  rectangle). An unclipped fill on the screen is the per-pixel fill exactly when
  its edges lie between words (`Blit.UnclippedFillIsPerPixelExactlyWhen`).
- The rebuilding of a payload claims no items beyond the scratch slots, from any
  counters, exactly when every list and map among the objects it can reach has a
  length at which the 32-bit budget test is exact
  (`Resolve.NeverOverrunsExactlyWhen`, `Resolve.ExactAtExactlyWhen`); lengths of
  arrays that fit in memory are such (`Resolve.LengthsInMemoryAreSafe`), a map
  that claims 2^31 entries (`Resolve.MapOf2To31Passes`) or a nested list that
  claims 2^32 - 1 items (`Resolve.NestedListOf2To32Minus1Passes`) is not.
- z_translate finds the sender's own address exactly when the pointer is NULL or
  of the kind the sender makes itself: outside the translation window for the
  kernel, inside it for any other process (`Sender.TranslateIsSeenExactlyWhen`,
  for a base of 0x8000_0000 always). A string that a process received and
  passes on is read at another address (`Sender.ForwardedPointerIsMisread`).
- The allocator's rounding wraps for requests above 2^32 - 4096
  (`Mem.NeedCovers`: the rounded size covers the request exactly up to there);
  a request of 2^32 - 4095 bytes is granted 32768
  (`Mem.WrappedRequestGetsSmallBlock`).
- An acknowledgement older than the outstanding segment is accepted
  (`Tcp.StaleAckIsAccepted`), although the comment at
  sw/apps/net/tcp.c:323-329 says stale ones do nothing. `Tcp.AckAccepted` gives
  the exact condition. Between two ends it is harmless, whatever state the
  other end is in, exactly when the outstanding segment is empty
  (`TcpPair.AckIsHarmlessExactlyWhen`, and `TcpPair.DelayedAckLosesData` for a
  run in which it is not harmless).
- The comment at sw/apps/net/tcp.c:400-402 requires our SYN to be the thing
  acknowledged. The connection opens exactly when anything but our initial
  number is (`Tcp.OpensExactlyWhen`, `Tcp.AckOfNothingSentOpens`).
- The comment at sw/apps/net/tcp.c:423-425 says that a piece seen before is
  acknowledged again. It is exactly when it starts in the same turn of the
  32-bit sequence space as the next expected byte
  (`Tcp.SeenPieceIsAnsweredExactlyWhen`, `Tcp.SeenPieceAcrossWrapIsDropped`).
- The data of a received segment fits the 536-byte buffer it is cleaned into,
  for every segment of a given length, exactly up to 536 bytes
  (`Telnet.CleanFitsExactlyUpTo536`, `Telnet.PlainSegmentOf537DoesNotFit`).
- The 16-bit count of escaped bytes decides like the true length under the
  condition of `Telnet.CountDecidesExactlyWhen`, for every input of a given
  length exactly up to 32767 bytes (`Telnet.CountDecidesExactlyUpTo32767`,
  `Telnet.CountOf32768IacsIsZero`).
- A segment is given up after 79 * 366 ticks, about 39.5 seconds, not the 31.5
  seconds of sw/common/zport.c:23-25 (`Tcp.EightCopiesThenAbandoned`).
- A carriage return and line feed give two lines when the buffer is reset in
  between, as the caller is told to do (`Line.CrLfAcrossReset`).
- A repeated pull gives the event of a lost reply exactly when that reply was
  not the end of the stream (`Stream.RetryRepeatsAllButEof`), whose retry looks
  malformed (`Stream.LostEofIsNotRecovered`); the text of a lost error is lost.
  Pull numbers are recognised exactly below 65536
  (`Stream.PullRecognisedExactlyBelow65536`).
- A producer that sends the end of the stream right after a chunk, as
  sw/apps/net/tftp.c:160-185 does, frees a chunk the consumer will still accept
  (`Stream.EarlyEofFreesUndeliveredChunk`). Ending the stream is safe exactly
  when no chunk has been sent since the last reported pull
  (`Stream.EndingIsSafeExactlyWhenNothingIsHeld`). zstream.h asks for one answer
  to each pull, and with that the stream is safe (`Stream.EveryRunIsSafe`).
- A copy of a payload is equal to it, whatever malloc held, exactly when it
  holds no NULL string, no infinite or not-a-number float, and no blob that
  claims a length with a NULL data pointer
  (`Zobj.CopyIsEqualExactlyWhenFaithful`, `Zobj.NullBlobMayDiffer`). The last
  are copied without bytes, sw/common/zobj.c:104.
- cursor_x may still be 80 when the next byte is processed, against
  sw/common/zvt100.h:59-63 (`Vt100.CursorIsStillAt80`), and is 80 after a byte
  exactly under the condition of `Vt100.CursorAt80ExactlyWhen`; the model keeps
  `0 <= x <= 80`.
- CUD and CUF overflow a 32-bit `int` exactly when the cursor's row or column
  plus the parameter passes 2^31 - 1 (`Vt100.CursorFitsExactlyWhen`,
  `Vt100.CursorDownOverflows`); parameters of at most nine digits never do
  (`Vt100.DigitsFit`).
- sw/os/pidreg.h:56-57 says that too long a base name is refused; the code
  registers its first 15 characters (`PidReg.LongBaseNameIsTruncated`,
  `PidReg.SixteenCharactersAreAccepted`). The header's promise is kept exactly
  when the name is not too long or the table is full
  (`PidReg.PromiseKeptExactlyWhen`).
- Starting an unused slot, or stopping or killing pid 0, or killing an unused
  slot, is accepted and breaks the process table's invariant; every other
  start, stop or kill keeps it (`Kernel.FlagStepKeepsInvExactlyWhen`).
- A process that stops itself goes on running while only the kernel is active
  besides (`Kernel.StoppedProcessGoesOn`): the timer hands the processor over
  exactly when two slots are active and another one can run
  (`Kernel.HandsOverExactlyWhen`).
- A new process has its stack in its own memory exactly when the sizes do not
  round to zero (`Kernel.NewProcessIsReady`).

## Model

| member | source | states |
|---|---|---|
| Raster.IdealIsWithinHalfAPixel | sim/machine.c:85-123 | every pixel of the reference line is within half a pixel of the true line along the minor axis, one per step of the major axis |
| Raster.IdealEndpoints | sim/machine.c:88-101 | the reference starts at (x0, y0) and ends at (x1, y1) |
| Raster.IdealEndsOnce | sim/machine.c:115 | the end point is reached at the last step only, so the loop's exit test cannot fire early |
| Raster.Advance | sim/machine.c:117-119 | the two error tests of the loop lead from each reference pixel to the next, for all integer endpoints |
| Raster.TraceOf | sim/machine.c:101-120 | the whole run of the loop is the reference line: max(abs dx, abs dy) + 1 pixels, the end point exactly last |
| Raster.Rasterizer.Run | sim/machine.c:85-123 | paints exactly those pixels, subject to clip and screen, nothing else; the cap cuts no line with max(abs dx, abs dy) <= 1000 |
| Raster.Rasterizer.Follow | sim/machine.c:101-122 | the loop with its cap, painting along a trace and counting pixels |
| Raster.Rasterizer.SetPixel | sim/machine.c:79-83 | changes one pixel of the frame buffer |
| Raster.PixelOfWithPixel | sim/machine.c:79-83 | every other pixel keeps its value |
| Raster.ClipIsRectangle | sim/machine.c:103-105 | with the casts to unsigned the clip test is the closed rectangle, without negative coordinates |
| Blit.Blitter.Run | sim/machine.c:134-215 | the two loops over the words do what the word-level specification says |
| Blit.Blitter.FillRows | sim/machine.c:182-214 | all lines of the request, addresses wrapping at 32 bits |
| Blit.Blitter.FillRow | sim/machine.c:184-212 | one row of words, each masked as its position asks |
| Blit.OutWordBit | sim/machine.c:193-208 | the word written has the pattern bit inside the left and right masks and the old bit outside |
| Blit.ClippedFillIsPerPixel | sim/machine.c:134-215 | a clipped fill with sums that fit 32 bits sets each on-screen pixel of the rectangle to its pattern bit and no other |
| Blit.ClippedFillIsPerPixelExactlyWhen | sim/machine.c:134-215 | a clipped fill is the per-pixel fill for every frame buffer if and only if its ends fit 32 bits or it has no pixel on the screen |
| Blit.WrappedFillDrawsNothing | sim/machine.c:139-158 | a clipped fill that starts on the screen and whose end wraps, in either direction, leaves the frame buffer as it was |
| Blit.WrappedRectangleIsNotDrawn | sim/machine.c:139-142 | a concrete rectangle over pixel (6, 0) that does not set it |
| Blit.UnclippedFillPixel | sim/machine.c:134-215 | an unclipped fill of a rectangle on the screen writes whole words: the value of every pixel afterwards |
| Blit.UnclippedFillIsPerPixelExactlyWhen | sim/machine.c:134-215 | so it is the per-pixel fill if and only if the rectangle starts and ends between words |
| Blit.CopyModeChangesNothing | sim/machine.c:128-132 | without the fill bit nothing changes |
| Mem.Allocator.Initialize | sw/os/mem.c:67-77 | one free block covering the pool |
| Mem.Allocator.Allocate | sw/os/mem.c:79-138 | the first-fit loop over the linked descriptors equals first fit on the block list |
| Mem.Allocator.Release | sw/os/mem.c:140-181 | the search and the two merges equal removing one block and coalescing |
| Mem.Allocator.UseBlock | sw/os/mem.c:115-131 | exact fit, or a split that needs a descriptor |
| Mem.Allocator.SplitBlock | sw/os/mem.c:115-127 | the rest of the block becomes the next one in the list |
| Mem.Allocator.MergeWithNext | sw/os/mem.c:147-159 | a free pair becomes one block |
| Mem.AllocKeepsSound | sw/os/mem.c:79-138 | the list still tiles the pool with aligned blocks, no two neighbours free, descriptors within bounds |
| Mem.FreeKeepsSound | sw/os/mem.c:140-181 | the same after a free of any address |
| Mem.LiveDisjoint | sw/os/mem.c:79-138 | blocks in use never overlap |
| Mem.AllocLive | sw/os/mem.c:79-138 | a success adds exactly one aligned live block apart from all others; a failure changes nothing |
| Mem.FreeLive | sw/os/mem.c:140-181 | a free removes exactly the live block at that address |
| Mem.AllocFailsExactlyWhen | sw/os/mem.c:79-138 | fails if and only if no free block fits, or the first that fits must be split with all 256 descriptors taken |
| Mem.NothingLiveIsOneFreeBlock | sw/os/mem.c:140-181 | with nothing in use the list is one free block |
| Mem.EveryRun | sw/os/mem.c:57-181 | all of it over every sequence of allocations and frees |
| Mem.NeedCovers | sw/os/mem.c:63-65 | rounding up covers the request exactly when it does not wrap |
| Mem.WrappedRequestGetsSmallBlock | sw/os/mem.c:63-138 | a request whose rounding wraps is granted a minimal block of a fresh pool |
| PidReg.AppendDecimal | sw/os/pidreg.c:37-57 | appends the decimal digits of the number, cut at the buffer size |
| PidReg.CollectDigits | sw/os/pidreg.c:37-57 | the ten-digit loop collects exactly the decimal digits of a 32-bit number, in reverse |
| PidReg.CandidateInjective | sw/os/pidreg.c:37-57 | different numbers give different names |
| PidReg.TakenBelowBound | sw/os/pidreg.c:71-154 | pigeonhole: some number up to the count of active entries is free |
| PidReg.SmallestFreeUnique | sw/os/pidreg.c:71-154 | the smallest free number is well defined |
| PidReg.Registry.RegisterName | sw/os/pidreg.c:71-154 | the search loop stops, picks the smallest free number and fills the first free slot |
| PidReg.Registry.LookupName | sw/os/pidreg.c:156-180 | equals the lookup function |
| PidReg.Registry.Release | sw/os/pidreg.c:182-197 | clears exactly the entries of the process |
| PidReg.Registry.Initialize | sw/os/pidreg.c:61-69 | an empty table |
| PidReg.RunKeepsUnique | sw/os/pidreg.c:71-197 | over every run no two active entries share a name |
| PidReg.LookupIsHolder | sw/os/pidreg.c:156-180 | a lookup returns a pid if and only if that pid holds the name |
| PidReg.RegisteredNameLooksUpToOwner | sw/os/pidreg.c:71-197 | a registered name leads to its owner until the owner releases it, whatever else happens |
| PidReg.ReleasedNameIsFree | sw/os/pidreg.c:182-197 | after the release it leads nowhere |
| PidReg.RegisteredName | sw/os/pidreg.c:71-154 | the name is the first 15 characters of the argument at most, followed by the decimal numeral of the smallest number that makes it unlike every active name; it is stored with the caller's pid in the first free slot |
| PidReg.DigitsAreNumeral | sw/os/pidreg.c:37-57 | the digits are the numeral of the number in positional notation, without leading zeros |
| PidReg.RegisterSucceedsExactlyWhen | sw/os/pidreg.c:71-154 | a registration succeeds if and only if there is a non-empty name and the table is not full; no length is too long |
| PidReg.LongBaseNameIsTruncated | sw/os/pidreg.c:83-89 | a base name of more than 15 characters registers as its first 15 |
| PidReg.PromiseKeptExactlyWhen | sw/os/pidreg.h:56-57 | the code and the header's promise agree if and only if the name is not too long or the table is full |
| PidReg.SixteenCharactersAreAccepted | sw/os/pidreg.h:56-57 | a concrete name the header says is refused |
| Kernel.ProcessTable.OnTimer | sw/os/kernel.c:376-415 | saves the registers, scans, and returns the registers of the chosen process |
| Kernel.ProcessTable.NextProcess | sw/os/kernel.c:388-407 | the scan loop stops within 16 slots and reaps what it passes |
| Kernel.ProcessTable.ReapSlot | sw/os/kernel.c:392-404 | memory, names and slot are released together |
| Kernel.ProcessTable.CreateProcess | sw/os/kernel.c:440-529 | first unused slot, or 0 with nothing changed |
| Kernel.ProcessTable.CountActive | sw/os/kernel.c:425-435 | the number of active slots |
| Kernel.ProcessTable.Start | sw/os/kernel.c:531-533 | sets the active flag of any of the 16 slots; the table stays consistent if and only if the slot is in use |
| Kernel.ProcessTable.Stop | sw/os/kernel.c:535-537 | clears the active flag of any of the 16 slots; the table stays consistent if and only if the pid is not 0 |
| Kernel.ProcessTable.Kill | sw/os/kernel.c:539-543 | marks any slot for reaping, or refuses a pid out of range; the table stays consistent if and only if the slot is in use and not pid 0 |
| Kernel.FlagStepKeepsInvExactlyWhen | sw/os/kernel.c:531-543 | the exact condition under which starting, stopping and killing keep the invariant |
| Kernel.StepKeepsInv | sw/os/kernel.c:376-543 | pid 0 stays runnable, every used slot owns a live block of its own, unused slots are inert, the pool stays sound, names stay unique |
| Kernel.SlotsOwnDisjointBlocks | sw/os/kernel.c:440-529 | processes never share memory: the blocks of two used slots, and the ranges from base to base + size, are disjoint |
| Kernel.ScanFrees | sw/os/kernel.c:392-404 | a scan releases exactly the blocks of the processes it reaps |
| Kernel.CreateKeepsInv | sw/os/kernel.c:440-529 | creation gives the slot a block nobody else has |
| Kernel.BootEstablishesInv | sw/os/kernel.c:205-290 | the state main() sets up satisfies the invariant |
| Kernel.RunKeepsInv | sw/os/kernel.c:376-543 | so does every later state |
| Kernel.NearerGoesFirst | sw/os/kernel.c:388-407 | of two runnable processes the nearer in slot order runs first |
| Kernel.ExactlyOneTurnBetween | sw/os/kernel.c:376-415 | between two turns of a process every other one that stays runnable gets exactly one |
| Kernel.EveryoneRunsWithin16Switches | sw/os/kernel.c:376-415 | no starvation: among 16 switches every process that stays runnable gets a turn |
| Kernel.ResumesWhereItStopped | sw/os/kernel.c:382-414 | a process resumes with exactly the registers it was preempted with |
| Kernel.NewProcessIsReady | sw/os/kernel.c:440-529 | a new process waits to be started; through the translation unit its program counter is the first byte of its memory, its stack pointer the last word of it, and its other registers are zero, if and only if its size is not zero |
| Kernel.StepKeepsRunning | sw/os/kernel.c:376-543 | the slot of the running process stays in use over every permitted step |
| Kernel.FirstTurnStartsProgram | sw/os/kernel.c:376-529 | in every run in which it stays runnable once started, its first turn begins so |
| Kernel.KernelStartsAtPoolBase | sw/os/kernel.c:205-290 | pid 0 starts at the beginning of the pool with its stack at the end of its memory |
| Kernel.TurnsGoToRunnable | sw/os/kernel.c:388-407 | only an active slot that is not dying is given a turn |
| Kernel.FlagsDecide | sw/os/kernel.c:531-543 | what starting, stopping and killing mean for whether a slot can run; all else and all other slots stay |
| Kernel.HandsOverExactlyWhen | sw/os/kernel.c:376-415 | the timer hands the processor over if and only if two slots are active and another can run, and resumes the registers of one that can |
| Kernel.StoppedProcessGoesOn | sw/os/kernel.c:379-380 | a process that stops itself goes on while only the kernel is active besides |
| Kernel.KilledProcessEnds | sw/os/kernel.c:388-407 | a killed process gets no further turn, and within 16 switches its slot is unused, its memory free and its names released |
| Mailbox.Ring.PushMessage | sw/os/msg.c:50-68 | the ring appends to a queue of at most 32, or refuses and changes nothing |
| Mailbox.Ring.PopMessage | sw/os/msg.c:70-86 | the ring removes the oldest message |
| Message.SendMessage | sw/os/msg.c:232-256 | queued exactly when the target exists and has room; the letter carries the target, subject, tag and object as passed and the pid of the running process as its sender |
| Message.ReadMessage | sw/os/msg.c:258-281 | the oldest envelope with its sender, subject and tag, and its payload rebuilt, which for the sender's own pointers is the tree the sender sees; Z_NONE when it does not fit |
| Message.EveryRunDeliversInOrder | sw/os/msg.c:50-86 | what a process has read, followed by what is queued for it, is exactly what the accepted send steps to it passed, in order and stamped with their senders' pids |
| Message.AcceptedLetterIsRead | sw/os/msg.c:232-281 | a letter accepted now is the one its process reads in its place, with the sender's pid and the caller's subject, tag and object |
| Resolve.Scratch.ResolveObj | sw/os/msg.c:125-228 | unless the budget test is passed by too long a table: succeeds and fails as specified, stays inside the 4/16/2 slots, leaves earlier slots alone, and what it returns holds the rebuilt tree |
| Resolve.Scratch.ResolveBlob | sw/os/msg.c:143-165 | the blob case: a translated header in the next slot |
| Sender.TranslateIsSeenExactlyWhen | sw/os/msg.c:107-111 | the translated pointer is the address the sender itself uses through the translation unit if and only if it is NULL or one the sender makes itself |
| Sender.ForwardedPointerIsMisread | sw/os/msg.c:107-111 | a pointer for which it is not |
| Sender.OwnPayloadMeansWhatIsSeen | sw/os/msg.c:125-228 | for a payload made of the sender's own pointers, the tree that resolving is specified by is the tree the sender reads through its own addresses |
| Sender.PayloadArrivesAsSeen | sw/os/msg.c:125-228 | such a payload resolves if and only if that tree fits the scratch slots, and is rebuilt as that tree |
| Resolve.Scratch.ResolveTable | sw/os/msg.c:167-220 | the list and map case with its 32-bit budget test, for every 32-bit length at which the loop stays inside the slots |
| Resolve.Scratch.FillTable | sw/os/msg.c:193-215 | the loop over items, or keys and values in turn |
| Resolve.ResolvesExactlyWhatFits | sw/os/msg.c:125-228 | resolves if and only if the object denotes a finite tree of at most 4 tables, 16 items and 2 blobs, and then rebuilds that tree; for every graph and every 32-bit length, cyclic ones included |
| Resolve.MeaningIsUnique | sw/os/msg.c:125-228 | an object denotes at most one tree |
| Resolve.SelfContainingListIsRefused | sw/os/msg.c:182-185 | from any counters, a list that is its own first item is never rebuilt, and is refused whenever its own length is safe |
| Resolve.HoldsOnItsSlots | sw/os/msg.c:187-191 | what a rebuilt object means depends only on the slots it was given |
| Resolve.ExactAtExactlyWhen | sw/os/msg.c:180-182 | the 32-bit budget test is exact if and only if the sum does not pass 2^32 or its remainder is above the limit anyway |
| Resolve.SafeLengthExactlyWhen | sw/os/msg.c:180-182 | the lengths at which it is exact whatever has been claimed before |
| Resolve.LengthsInMemoryAreSafe | sw/os/msg.c:180-182 | every array that fits a 32-bit address space is among them |
| Resolve.NeverOverrunsExactlyWhen | sw/os/msg.c:167-220 | for any set of objects closed under their entries: none of them claims items beyond the scratch slots, from any counters, if and only if every list and map in the set has such a length |
| Resolve.ExactNeverOverruns | sw/os/msg.c:167-220 | so one payload claims none when what it reaches has such lengths |
| Resolve.MapOf2To31Passes | sw/os/msg.c:180-182 | a concrete length at which a map needs more items than there are and passes the test |
| Resolve.NestedListOf2To32Minus1Passes | sw/os/msg.c:180-182 | and one for a list inside a list |
| Zobj.CopyObj | sw/common/zobj.c:294-354 | copying a rebuilt payload yields a copy of its tree: a NULL string becomes an empty one, a blob with NULL data one of its length with arbitrary bytes, everything else is as it was |
| Zobj.CopyBlob | sw/common/zobj.c:80-107 | the bytes are copied only when there are any, and are whatever malloc returned otherwise |
| Zobj.EqualObj | sw/common/zobj.c:357-422 | comparing it with a copy decides tree equality |
| Zobj.EqualExactlyWhenSame | sw/common/zobj.c:357-422 | without floats the comparison succeeds if and only if the two trees are the same |
| Zobj.CopyIsEqualExactlyWhenFaithful | sw/common/zobj.c:294-422 | every possible copy is equal to the original if and only if that has no NULL string, only finite floats, and no blob that claims a length without data |
| Zobj.NullBlobMayDiffer | sw/common/zobj.c:80-107 | a blob of length 3 with a NULL data pointer has a copy that differs from it |
| Zobj.ReadAndCopy | sw/common/zobj.c:294-422 | resolve, copy and compare end to end, stated about the sender's object alone, and for its own pointers about the tree it sees itself: the result is a copy of that tree, the comparison says whether they are equal, succeeds on every faithful tree and fails on every tree with a NULL string or a float that is not finite |
| Port.SenderPort.SendData | sw/common/zport.c:99-157 | checks, allocation, send, and the append to the ring of pending blobs, or no change |
| Port.SenderPort.HandleAckMessage | sw/common/zport.c:208-231 | frees the oldest pending blob of its own connection |
| Port.SendAck | sw/common/zport.c:173-206 | tries until the message is taken or the window of 366 ticks is over, no longer and no less |
| Port.SendIsItsSteps | sw/common/zport.c:99-157 | the uninterrupted call is its three interleaved steps in a row |
| Port.StepKeepsInv | sw/common/zport.c:99-231 | every step of sender, receiver and other traffic keeps the ledger of blobs |
| Port.EveryRunIsSafe | sw/common/zport.c:99-231 | every queued or half-read message refers to a live blob with the bytes that were sent; reading, freeing and sending are in the same order; at most 8 are outstanding; acknowledgements may be lost |
| Port.NothingInFlightIsFreed | sw/common/zport.c:208-231 | no step frees or changes a blob in flight |
| Port.FreesInSendOrder | sw/common/zport.c:208-231 | a freed blob is the oldest one sent and not yet freed, and it has been read |
| Port.NothingLeaksWhenQuiet | sw/common/zport.c:99-231 | when no acknowledgement was lost and all is quiet, nothing stays allocated |
| Port.ClosedPortIsInert | sw/common/zport.c:99-231 | a port that is not connected sends nothing and frees nothing |
| Stream.ProducerStream.Handle | sw/common/zstream.c:77-114 | a fresh pull frees the last chunk and asks for data, a repeated one resends it, anything else is ignored |
| Stream.ProducerStream.SendData | sw/common/zstream.c:116-123 | one more chunk, kept until the next pull |
| Stream.ProducerStream.SendLast | sw/common/zstream.c:125-143 | end of stream or error |
| Stream.ProducerStream.CloseStream | sw/common/zstream.c:145-148 | frees the last chunk |
| Stream.PullIsUnderstood | sw/common/zstream.c:274-278 | the pull's tag is one both sides know: the producer reports it exactly when everything sent was delivered, and then numbers its next chunk by it; otherwise it sends again a message that the consumer takes as the reply to this pull |
| Stream.ConsumerStream.Handle | sw/common/zstream.c:280-341 | opening, and exactly the reply to the current pull |
| Stream.StepKeepsInv | sw/common/zstream.c:48-341 | every step keeps numbering, delivery and the one live blob consistent, with messages lost, repeated and reordered |
| Stream.EveryRunIsSafe | sw/common/zstream.c:48-341 | what was delivered is a prefix of what was sent and at most one behind; the end is seen only when all is delivered; at most one blob lives, and a borrowed one is it |
| Stream.OpenReplyStartsStream | sw/common/zstream.c:280-308 | the reply to the open request, and no other message, opens the stream, in the state from which every run is safe |
| Stream.AbortReportedExactlyWhen | sw/common/zstream.c:77-90 | an abort is reported if and only if it carries the number of an active stream |
| Stream.FreshPullFreesDeliveredChunk | sw/common/zstream.c:92-100 | a pull that frees a chunk proves that it was delivered |
| Stream.AcceptedChunkIsNext | sw/common/zstream.c:310-323 | the consumer accepts exactly the chunk it lacks, while its blob is alive |
| Stream.RetryRepeatsAllButEof | sw/common/zstream.c:102-109 | after any reply was lost, pulling again gives the same event if and only if the reply was not the end of the stream; a chunk comes with the bytes that were sent |
| Stream.ConsumerStream.PullNext | sw/common/zstream.c:274-278 | the one message of an active consumer, and which event it causes in any producer of the stream: a fresh pull exactly when the producer's next number is the consumer's |
| Stream.LostChunkIsRecovered | sw/common/zstream.c:102-109 | pulling again recovers a lost chunk |
| Stream.PullRecognisedExactlyBelow65536 | sw/common/zstream.c:89-92 | the 16-bit number is recognised if and only if it is below 65536 |
| Stream.LostEofIsNotRecovered | sw/common/zstream.c:102-109 | the retry of a lost end of stream arrives as an error |
| Stream.EarlyEofFreesUndeliveredChunk | sw/common/zstream.c:125-132 | answering a pull with a chunk and then ending the stream leaves a chunk in the channel that the consumer accepts although its blob is freed |
| Stream.EndingIsSafeExactlyWhenNothingIsHeld | sw/common/zstream.c:125-143 | for every consumer consistent with the producer's state, ending keeps every acceptable or borrowed chunk alive if and only if no chunk was sent since the last reported pull |
| Gfx.StepKeepsInv | sw/common/zgfx.c:233-289 | only the running process is ever in a masked section, a writer of registers found the blitter idle and it stays so |
| Gfx.NothingDroppedOrMixed | sw/common/zgfx.c:233-289 | for any number of processes and any interleaving the hardware performs exactly the started operations, unmixed |
| Gfx.LatchedIsRequested | sw/common/zgfx.c:469-478 | with all its registers written, a start performs exactly the requested fill or glyph |
| Gfx.MaskedSectionEnds | sw/common/zgfx.c:245-282 | the masked section ends by the running process's own steps |
| Gfx.ClampedIsIntersection | sw/common/zgfx.c:257-267 | the clamped rectangle is the part of the rectangle on the driver's 640 x 480 screen |
| Gfx.FillRectDraws | sw/common/zgfx.c:257-289 | any rectangle, clamped to 640 x 480 and run by the 512 x 384 blitter, sets exactly its pixels on the smaller screen |
| Vt100.VtScreen.FeedOne | sw/common/zvt100.c:202-279 | the byte-level parser and every cell, flag and parameter update equal the value-level screen |
| Vt100.VtScreen.FeedMany | sw/common/zvt100.c:281-283 | the same for a buffer |
| Vt100.VtScreen.Initialize | sw/common/zvt100.c:285-308 | the fresh screen |
| Vt100.VtScreen.DoScrollUp | sw/common/zvt100.c:21-38 | rows move up one by one and the last becomes blank |
| Vt100.VtScreen.DoPutChar | sw/common/zvt100.c:56-72 | deferred wrap, the cell, the dirty flag |
| Vt100.VtScreen.DoDispatch | sw/common/zvt100.c:96-200 | cursor movement, erasing and attributes |
| Vt100.VtScreen.RowDirty | sw/common/zvt100.c:310-313 | the flag of a row on the screen, false elsewhere |
| Vt100.FeedByte | sw/common/zvt100.c:202-279 | keeps 25 rows of 80 cells, 0 <= y < 25, 0 <= x <= 80 and fewer than 8 parameters |
| Vt100.ShowsAfterByte | sw/common/zvt100.c:202-230 | one byte typed on the screen and on an endless sheet keep the screen its 25-row window |
| Vt100.FreshScreenShowsSheet | sw/common/zvt100.c:21-72 | for every byte stream without ESC the grid is the last 25 rows of the sheet, wrap and scrolling included |
| Vt100.CursorAt80ExactlyWhen | sw/common/zvt100.c:202-279 | the cursor is at column 80 after a byte if and only if the byte filled the row, or it was there and the byte is not one that moves it |
| Vt100.CursorIsStillAt80 | sw/common/zvt100.h:59-63 | after 80 printable bytes it is at 80, and stays there over a line feed |
| Vt100.CursorFitsExactlyWhen | sw/common/zvt100.c:100-140 | with 32-bit sums the cursor ends where it should if and only if moving down or right does not pass 2^31 - 1 |
| Vt100.CursorDownOverflows | sw/common/zvt100.c:108-114 | moving down 2^31 - 1 rows from the second one leaves a negative row |
| Vt100.DigitsFit | sw/common/zvt100.c:251-260 | a parameter of at most nine digits is below 10^9, so the sums fit |
| Sequences.SequenceIsDispatched | sw/common/zvt100.c:232-279 | ESC [ p1 ; ... ; pn and a final byte, n up to 8: the final byte meets exactly the numbers written, and which were absent |
| Sequences.EraseInDisplay | sw/common/zvt100.c:142-158 | ESC [ mode J blanks with the current attribute the cells from the cursor on (0 or absent), up to it (1) or all (otherwise), and no other |
| Sequences.EraseInLine | sw/common/zvt100.c:160-171 | ESC [ mode K does so within the cursor's row |
| Sequences.SelectRendition | sw/common/zvt100.c:173-193 | the last parameter among 0, 7 and 27 decides the attribute, and nothing else changes |
| Sequences.CursorPosition | sw/common/zvt100.c:132-140 | the cursor goes to the row and column written, counted from one, or to the nearest on the screen |
| Sequences.CursorMoves | sw/common/zvt100.c:100-130 | the four relative movements, as far as the screen goes |
| Sequences.OthersAreAbsorbed | sw/common/zvt100.c:196-246 | any other final byte, and ESC before anything but a bracket, changes nothing |
| Sequences.LineFeed | sw/common/zvt100.c:21-54 | the cursor goes down, or the rows go up and a blank one with the current attribute comes in |
| Sequences.TabStops | sw/common/zvt100.c:217-222 | a tab goes to the next multiple of eight or the last column |
| Vt100.CellsStayPrintable | sw/common/zvt100.c:202-279 | no byte stores an unprintable cell |
| Vt100.ChangedRowsAreDirty | sw/common/zvt100.c:13-19 | a row that changes is dirty and stays so |
| Vt100.RendererHoldsTheGrid | sw/common/zvt100.c:310-321 | a renderer repainting only dirty rows, at any moments, holds exactly the current grid |
| Line.LineBuffer.Feed | sw/common/zline.c:19-89 | buffer, flag, echo and result of one byte |
| Line.LineBuffer.Reset | sw/common/zline.c:13-17 | an empty line that remembers no carriage return |
| Line.EchoKeepsShowing | sw/common/zline.c:19-89 | one byte's echo fed to the terminal keeps it showing the buffer |
| Line.TerminalShowsLine | sw/common/zline.c:19-89 | for every byte sequence that stays on the row the terminal shows exactly the buffer, blanks after it and the cursor behind it, and nothing else changes |
| Line.LineHoldsWhatWasTyped | sw/common/zline.c:19-89 | the text is the printable characters typed, in order, without those that later erases take, whatever line ends and control bytes come between |
| Line.FullLineIgnoresCharacters | sw/common/zline.c:79-80 | a full line takes no more characters and echoes none |
| Line.LineFeedCompletes | sw/common/zline.c:24-40 | a line feed ends a line if and only if it does not directly follow a carriage return |
| Line.CrLfAcrossReset | sw/common/zline.c:13-17 | with a reset in between one CRLF completes two lines |
| Checksum.IpChecksum | sw/apps/net/ip.c:98-113 | the 32-bit loop with one final fold is the one's complement sum of RFC 1071 section 1, for every length |
| Checksum.FoldAndComplement | sw/apps/net/ip.c:108-111 | the folding loop terminates and reduces exactly |
| Checksum.OnesSumIsNorm | sw/apps/net/ip.c:98-113 | end-around carries at every addition equal one reduction at the end |
| Checksum.StoredChecksumVerifies | sw/apps/net/ip.c:142-144 | storing the checksum in a zeroed even-offset field makes the checksum of the whole zero |
| Checksum.IpSend | sw/apps/net/ip.c:115-146 | every field of the header reads back at its place in section 3.1 of RFC 791, the header verifies and the payload follows unchanged |
| Checksum.IcmpEchoReply | sw/apps/net/ip.c:182-209 | answers exactly the echo requests, with the same bytes and a checksum that verifies |
| Checksum.TcpChecksum | sw/apps/net/tcp.c:125-147 | the same with the pseudo-header of section 3.1 of RFC 793 |
| Checksum.PseudoHeaderIsItsWords | sw/apps/net/tcp.c:130-135 | the sum starts from the words of source, destination, protocol 6 and length |
| Checksum.TcpSegmentVerifies | sw/apps/net/tcp.c:189-197 | a segment with its stored checksum verifies |
| TcpClient.WireParsesBack | sw/apps/net/tcp.c:153-201 | a receiver with the same parser reads back the segment that was meant |
| TcpClient.WireLayout | sw/apps/net/tcp.c:153-201 | every field and flag is where section 3.1 of RFC 793 puts it |
| TcpClient.WireVerifies | sw/apps/net/tcp.c:194-197 | and its checksum comes out as zero |
| TcpClient.Client.SendSegment | sw/apps/net/tcp.c:153-201 | the packet buffer holds exactly that segment |
| TcpClient.Client.Track | sw/apps/net/tcp.c:209-228 | sends, remembers for retransmission, advances snd_nxt |
| TcpClient.Client.AcceptAck | sw/apps/net/tcp.c:330-344 | process_ack |
| TcpClient.Client.ConnectTo | sw/apps/net/tcp.c:248-274 | the SYN, or a refusal with no change |
| TcpClient.Client.SendBytes | sw/apps/net/tcp.c:280-289 | one segment when established and nothing is outstanding |
| TcpClient.Client.CloseConnection | sw/apps/net/tcp.c:291-300 | the FIN under the same condition |
| TcpClient.Client.AbortConnection | sw/apps/net/tcp.c:302-305 | a RST and the closed state |
| TcpClient.Client.HandlePacket | sw/apps/net/tcp.c:346-531 | parsing, address test and the whole state machine on the mutable control block |
| TcpClient.Client.PollTimer | sw/apps/net/tcp.c:533-572 | the retransmit timer |
| Tcp.StepKeepsTxInv | sw/apps/net/tcp.c:209-228 | in every open state a pending segment means snd_una = tx_seq and snd_nxt behind it, otherwise snd_una = snd_nxt |
| Tcp.AckAccepted | sw/apps/net/tcp.c:330-344 | an acknowledgement is accepted if and only if it covers the segment or is older than it, across wrap-around |
| Tcp.StaleAckIsAccepted | sw/apps/net/tcp.c:338 | one that is a byte too old is accepted |
| Tcp.SeenPieceIsAnsweredExactlyWhen | sw/apps/net/tcp.c:417-431 | a piece received before is acknowledged again if and only if it starts in the same turn of the sequence space as the next expected byte |
| Tcp.SeenPieceAcrossWrapIsDropped | sw/apps/net/tcp.c:422-425 | a repeated piece that is not answered |
| Tcp.ApplicationSeesPeerStream | sw/apps/net/tcp.c:395-466 | with the peer's segments lost, repeated and reordered the application gets exactly a prefix of the peer's stream, ending at rcv_nxt while established |
| Tcp.NextSegmentIsDelivered | sw/apps/net/tcp.c:417-421 | the next piece is delivered whole and acknowledged to its end |
| Tcp.ReceiveFinIsLast | sw/apps/net/tcp.c:432-461 | a FIN is accepted only after the whole stream |
| Tcp.OnlyPollsRetransmit | sw/apps/net/tcp.c:533-572 | while unanswered, only a poll touches the tracked segment or its timer |
| Tcp.EightCopiesThenAbandoned | sw/apps/net/tcp.c:533-572 | a segment never acknowledged is sent exactly 8 times unchanged and abandoned no earlier than 79 * 366 ticks after the first |
| Tcp.AbandonedWithinEightGaps | sw/apps/net/tcp.c:533-572 | and no later than that plus 8 poll gaps |
| Tcp.AckThenFinCloses | sw/apps/net/tcp.c:468-496 | after an active close, the acknowledgement and then the peer's FIN lead through FIN_WAIT_2 to TIME_WAIT |
| Tcp.FinThenAckCloses | sw/apps/net/tcp.c:468-507 | the peer's FIN first, alone or with the acknowledgement, leads there too, and is acknowledged |
| Tcp.PassiveCloseCompletes | sw/apps/net/tcp.c:432-518 | a peer that closes first gets our FIN at once, the application hears of it once, and the acknowledgement ends the connection |
| Tcp.TimeWaitEnds | sw/apps/net/tcp.c:520-541 | TIME_WAIT outlasts everything but a reset, an abort, and a poll after 2196 ticks |
| Tcp.ConnectSendsSyn | sw/apps/net/tcp.c:248-274 | one SYN with our initial number, or a refusal with no change |
| Tcp.OpensExactlyWhen | sw/apps/net/tcp.c:376-411 | the connection opens if and only if the peer's SYN and ACK acknowledges anything but our initial number; it is then acknowledged at once with both numbers and reported once; a reset ends it with one event, and no other segment changes anything |
| Tcp.AckOfNothingSentOpens | sw/apps/net/tcp.c:400-403 | an acknowledgement of something never sent opens it |
| Tcp.ResetEndsConnection | sw/apps/net/tcp.c:376-393 | in every open state, with one event |
| Tcp.AbortResetsPeer | sw/apps/net/tcp.c:302-305 | one RST and no event, and nothing on a closed connection |
| Tcp.CloseSendsFin | sw/apps/net/tcp.c:291-300 | one FIN at the next number, or a refusal with no change |
| Tcp.TimeWaitAnswersFin | sw/apps/net/tcp.c:520-524 | a repeated FIN is acknowledged again |
| Tcp.NoAckFlagNoAck | sw/apps/net/tcp.c:413-415 | a segment without the ACK flag acknowledges nothing |
| Tcp.StrangersAreIgnored | sw/apps/net/tcp.c:346-360 | segments of another connection change nothing |
| TcpPair.HandshakeStarts | sw/apps/net/tcp.c:248-411 | our SYN, the peer's SYN and ACK and our one answer, which carries the numbers the peer waits for, lead to the pair from which every run delivers |
| TcpPair.StepKeepsInv | sw/apps/net/tcp.c:280-572 | every send, poll and arrival at either of two established ends keeps sequence numbers, outstanding segments and the packets under way consistent with what was accepted and delivered |
| TcpPair.EachSideReceivesWhatWasAccepted | sw/apps/net/tcp.c:280-572 | over every run with segments lost, repeated and reordered, and no acknowledgement older than the segment it meets, each application has a prefix of what the other side's tcp_send accepted, at most one segment behind, and all of it when nothing is outstanding |
| TcpPair.AckIsHarmlessExactlyWhen | sw/apps/net/tcp.c:330-344 | for every state the other end may be in, an arriving acknowledgement leaves its receiver right about what was delivered if and only if it is not older than the outstanding segment or that segment is empty |
| TcpPair.DelayedAckLosesData | sw/apps/net/tcp.c:330-344 | a run of six steps in which an end stops waiting for data the other end does not have |
| Telnet.Session.Receive | sw/apps/net/telnet.c:103-161 | the parsing loop, for every segment whose data bytes fit the buffer: data bytes, parser state and queued replies |
| Telnet.Session.ParseByte | sw/apps/net/telnet.c:112-157 | one byte of it, wherever its output fits the buffer |
| Telnet.Session.QueueBytes | sw/apps/net/telnet.c:61-66 | all of it or nothing |
| Telnet.Session.SendData | sw/apps/net/telnet.c:209-229 | wherever the 16-bit count decides like the true length, the escaped bytes are queued whole or not at all |
| Telnet.Session.Poll | sw/apps/net/telnet.c:241-253 | what TCP takes leaves the front of the queue, in order |
| Telnet.Session.Restart | sw/apps/net/telnet.c:195-207 | a new connection starts with an empty queue between two units |
| Telnet.CleanFitsExactlyUpTo536 | sw/apps/net/telnet.c:103-110 | every segment of n bytes, in any parser state, fits the buffer if and only if n is at most 536 |
| Telnet.PlainSegmentOf537DoesNotFit | sw/apps/net/telnet.c:103-110 | 537 plain bytes do not |
| Telnet.CountDecidesExactlyWhen | sw/apps/net/telnet.c:216-220 | the test on the wrapped count gives the true length's answer if and only if it refuses or the true length fits |
| Telnet.CountDecidesExactlyUpTo32767 | sw/apps/net/telnet.c:216-220 | it does for every input of n bytes and every queue if and only if n is at most 32767 |
| Telnet.CountOf32768IacsIsZero | sw/apps/net/telnet.c:216-220 | 32768 IAC bytes are counted as none |
| Telnet.SegmentationDoesNotMatter | sw/apps/net/telnet.c:103-161 | however the stream is cut into segments the result is the same |
| Telnet.StreamIsRead | sw/apps/net/telnet.c:68-161 | of any stream of data, negotiations, subnegotiations and other commands the application gets exactly the data, and the peer exactly the answers: DO to an offer of ECHO or SUPPRESS-GO-AHEAD, DONT to any other, WONT to every demand |
| Telnet.EscapeParsesBack | sw/apps/net/telnet.c:222-225 | parsing undoes escaping |
| Telnet.PeerDeliversAcceptedBytes | sw/apps/net/telnet.c:61-161 | a peer with the same parser has read a prefix of the accepted bytes, all of them once the queue is empty, with replies queued anywhere between |
| Telnet.AnswersRankLower | sw/apps/net/telnet.c:71-95 | every answer ranks below its request (WILL, DO, then the refusals) |
| Telnet.NegotiationEnds | sw/apps/net/telnet.c:71-161 | between two such ends, over any run, the requests answered never exceed the rank of those under way at the start |
| Telnet.OneOfferTwoAnswers | sw/apps/net/telnet.c:71-161 | one offer causes at most two answers |

## Left out

- The CONNECT and REFUSED handshake of zport.c and the blocking calls of zstream.c: request and reply wiring with timeouts.
- Port: only the receiver sends a DATA_ACK with the connection's tag; one lost after the retry window occupies a pending slot for good.
- Stream: `EveryRunIsSafe` is for streams of at most 65535 chunks and callers that give each pull exactly one answer, as zstream.h asks.
- Gfx: the two drawing functions are steps of a transition system, not methods, because a process can lose the processor between any two of their statements; the software fallbacks and the glyph contents are not modelled.
- Blit.UnclippedFillPixel: an unclipped fill that reaches beyond the screen is modelled word by word, without a per-pixel statement, because its words run into the next rows.
- Raster: the C `int` overflow of endpoints more than 2^29 apart.
- Mem: padding blocks, because with an aligned pool the padding is proved zero; descriptors are never returned, as in the code.
- Kernel.ProcessTable.Start: says nothing about pids from 16 on, which the code does not check, because what lies behind the table is not part of this model.
- Kernel.ProcessTable.Stop: likewise.
- Kernel: the address translation register and the return address written on a new process's stack.
- Resolve: memory is read through total functions, one per kind of object, so overlapping objects and reads outside memory are not captured; an object is passed by value where the code updates it in place.
- Sender: a string, a table and an object are each read at one address, so one that reaches over the end of the window is not captured.
- Zobj: comparing a blob with NULL data reads whatever is at address 0; a copy is a tree value, so malloc failures, sharing and freeing are not captured; strings are byte sequences without their terminator; float rounding near the comparison bound is not modelled; z_map_set, z_list_append and z_obj_free are left out.
- Message: one process slot's mailbox at a time in the code; `Run` covers all 16.
- Tcp: the clock does not move within one call, and the event handler does not call back into TCP; several TCP_EVENT_CLOSED or none may be reported, as in the code.
- Telnet.Session.Receive: says nothing about a segment whose data bytes do not fit the 536-byte buffer, because what lies behind the buffer is not part of this model.
- Telnet.Session.ParseByte: likewise for one byte more than fits.
- Telnet.Session.SendData: says nothing where the 16-bit count passes the test and the true length does not, because what lies behind the queue is not part of this model.
- Resolve.Scratch.ResolveObj: says nothing where the loop would leave the scratch arrays, because what lies behind them is not part of this model.
- Resolve.Scratch.ResolveTable: likewise.
- Zobj.ReadAndCopy: likewise, for the payload it reads.
- Message.ReadMessage: likewise, for the payload it reads.
- TcpPair: connecting and closing, whose steps are in Tcp.dfy; a connection given up stays closed.
- Checksum: routing, ARP and the packet held back for it, after the header has been built.
- Vt100: the class computes CSI parameters and sums as mathematical integers; `CursorFitsExactlyWhen` and `DigitsFit` say when 32-bit ones agree. UTF-8 is not part of the code.
- Fonts, drivers, the shell, the window manager, dns, dhcp, arp, udp, file access and the CPU simulator: finite tables, wiring, or easier members.
