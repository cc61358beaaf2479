# Neutrix kernel: verified model

Neutrix is a small x86_64 kernel. This project models its components that carry real
algorithmic or concurrent content, in Dafny 4.11, and proves what they are for:
`dafny verify dfyconfig.toml` checks everything.

| file | component |
|---|---|
| `Executor.dfy`, `ExecutorRuns.dfy` | the async executor and the interrupt-fed keyboard and mouse streams, as a step system over all interleavings |
| `ExecutorOverflow.dfy` | the bounded ready queue: exactly when a push onto it panics |
| `ExecutorKernel.dfy` | the executor's nested loops on mutable fields, with interrupts at every point, as runs of the step system |
| `FrameSpec.dfy`, `FrameAllocator.dfy` | the physical frame allocator, whose bitmap lives inside the memory it manages |
| `MemRoutines.dfy` | the SSE `memcpy`, `memmove`, `memset`, `memcmp` |
| `Ioapic.dfy` | programming the IOAPIC redirection tables at boot |
| `PciBars.dfy` | sizing PCI base address registers |
| `Madt.dfy` | walking the ACPI MADT and MCFG tables |
| `Mouse.dfy`, `Cursor.dfy`, `MousePath.dfy` | PS/2 packet framing, the save-under mouse cursor, and the path from bytes to drawn positions |
| `VgaText.dfy` | the scrolling VGA text screen |
| `TscTimer.dfy` | calibrating the TSC against the HPET |

## How the executor is modelled

An `Event` is one mainline step, one device interrupt, a timer interrupt, a driver attach,
a spawn or the start of `run`; `Run` folds a list of events over the state, and an event that is not
enabled leaves the state alone. The event lists are therefore exactly the interleavings.
Interrupt handlers are single steps enabled by the interrupt flag; `enable_and_hlt` is one
step; `ArrayQueue` and `AtomicWaker` are taken as linearizable. There is any number of
devices, each with at most one consumer, and a polled future may complete after any item.
A push onto the full ready queue panics, and a panicked machine stays panicked.

`ExecutorKernel.Kernel` is the program itself: `Execute`, `RunReadyTasks`, `ServeTask`,
`PollTask`, `Consume`, `PollNext` and `SleepIfIdle` are nested methods over real fields, with
`Interrupts` called before every access to shared state, where any number of the pending
interrupts may be taken. The program point and the list of events are ghost fields, and
`Valid` says that the fields are `Run` of the logged events. `run` does not return in the
source; here it returns when the CPU is halted and no further interrupt will come.

## Findings

Where the code differs from its apparent intent, the model follows the code and states
exactly when the intent holds.

- The `expect` in `wake_task` can fail: an interrupt before and one after `register` leave a
  stale entry in the ready queue each time the second pop hits. Whether it can depends on the
  devices alone: no interleaving panics exactly if there are at most 100 devices and none can
  hold an item (`ExecutorOverflow.NeverPanicsExactly`), so the booted kernel, with queues of
  100 and 256, can. `ArrayQueue::new(0)` itself panics, so in the kernel the safe side means
  having no device at all. A step panics exactly if it pushes onto a full ready queue
  (`ExecutorOverflow.PanicExactly`), and it takes more than 100 tasks and hits together.
- `memcmp` compares a 16-bit movemask with -1, so ranges of 16 bytes and more are judged by
  their first 16 bytes (`MemRoutines.Memcmp`, `MemRoutines.MemcmpIsRightExactly`); 17 bytes that
  differ in the last one compare equal (`MemRoutines.MemcmpMissesByteSeventeen`).
- The legacy fallback overwrites interrupt source overrides for interrupts below 16
  (`Ioapic.OverrideSurvivesExactly`), among them the usual one of the timer
  (`Ioapic.TimerOverrideIsLost`); overrides with a source of 224 or more wrap into the exception
  vectors (`Ioapic.BootSafeExactly`, `Ioapic.HighSourceHitsExceptions`), and a booted board is
  safe exactly if no owned entry ends that way (`Ioapic.Board.Boot`); the 8-bit register index
  is right for 120 entries (`Ioapic.RegisterIndexWraps`).
- A bitmap that would be placed at physical address 0 counts as not found, whatever other
  regions could hold it (`FrameSpec.NoBitmapExactly`, `FrameSpec.PlacementAtZeroIsNotFound`).
- A cursor redraw at an unchanged position saves the arrow as background; the stain stays
  on the screen (`Cursor.CleanExactly`, `Cursor.RepeatSavesTheArrow`). The boot position counts:
  a first packet that does not move the cursor stains it (`Cursor.CursorDriver.Session`).
- Text printed into the framebuffer under the cursor's window while the cursor is shown is lost
  when it moves (`Cursor.TextSurvivesExactly`, `Cursor.TextIsLost`): `kernel_main` prints between
  the first redraw and the first packet, and the keyboard task prints between packets. The
  picture stays intact under one whole arrow exactly if every action is harmless when it happens
  (`Cursor.SeamlessExactly`).
- An IO BAR that decodes fewer than 32 address bits is reported too long, and the list of
  resources is right exactly if none does (`PciBars.IoSizeExactly`, `PciBars.ProbeBars`).
- A cut-off MADT entry is read past the end of the table even if the checksum is valid
  (`Madt.CutOffTableIsOverread`); the walk stays inside exactly if its last entry does
  (`Madt.StaysInsideExactly`).

## Model

| member | source | states |
|---|---|---|
| ExecutorModel.SpawnKeeps | src/arch/task.rs:44-50 | spawning a task under a fresh id, queued once, keeps every invariant of the system |
| ExecutorModel.LandLoad | src/driver_framework/drivers/ps2kbd.rs:42-45 | a device interrupt moves at most one claim, from a registered waker to the ready queue, and creates none |
| ExecutorModel.LandNoLost | src/driver_framework/drivers/ps2kbd.rs:42-45 | push followed by wake never leaves a parked task with input and no queue entry |
| ExecutorModel.IrqKeeps | src/driver_framework/drivers/ps2mouse.rs:82-87 | an interrupt at any point of mainline code keeps every invariant unless it panics |
| ExecutorModel.MoveKeeps | src/driver_framework/drivers/ps2kbd.rs:130-135 | any poll step that respects the pop, register, pop, take discipline keeps every invariant |
| ExecutorModel.PollKeeps | src/driver_framework/drivers/ps2mouse.rs:314-319 | each step of `poll_next` respects that discipline |
| ExecutorModel.PresentKeeps | src/driver_framework/drivers/ps2kbd.rs:34-36 | initialising a queue that may already hold input keeps every invariant |
| ExecutorModel.OpeningKeeps | src/driver_framework/drivers/ps2mouse.rs:309-311 | creating the stream on the first poll, with its `try_init_once`, keeps every invariant |
| ExecutorModel.PollPresent | src/driver_framework/drivers/ps2kbd.rs:131 | `poll_next` always finds its queue initialised, so that `expect` cannot fail |
| ExecutorModel.LoopKeeps | src/arch/task.rs:60-68 | popping the ready queue, including an id whose task is gone, keeps every invariant |
| ExecutorModel.FinishKeeps | src/arch/task.rs:69-76 | removing a finished task and its cached waker keeps every invariant; no waker of it is left behind |
| ExecutorModel.SleepKeeps | src/arch/task.rs:87-96 | disabling, checking, halting and enabling keep every invariant, given the queue was seen empty with interrupts off |
| ExecutorModel.TickKeeps | src/arch/task.rs:80-96 | every mainline step keeps every invariant and never panics |
| ExecutorModel.StepKeeps | src/arch/task.rs:52-96 | every event that does not panic keeps every invariant |
| ExecutorRuns.EveryInterleaving | src/arch/task.rs:52-96 | in every interleaving: no lost wakeup, safe halt, in-order delivery, and per task queue entries plus registration at most 1 plus its second-pop hits |
| ExecutorRuns.HaltedInputWakesItsTask | src/arch/task.rs:87-96 | from every reachable halt, input for a live task makes exactly that task ready and the next step polls it |
| ExecutorRuns.StepIsFifo | src/arch/task.rs:60-69 | a step takes at most one entry from the front of the ready queue or appends one, and polls start only from the front |
| ExecutorRuns.RunIsFifo | src/arch/task.rs:60-78 | over every run the ready queue is the old queue, then everything that became ready in order, less what was taken from the front |
| ExecutorRuns.TickWorks | src/arch/task.rs:60-96 | every mainline step of a running machine lowers the work left |
| ExecutorRuns.TicksHalt | src/arch/task.rs:80-96 | without interrupts the machine halts within the work left, whatever the futures decide |
| ExecutorRuns.InputIsNeverStranded | src/arch/task.rs:52-96 | once interrupts stop, the machine halts and every item accepted for a live task was delivered, in order, exactly once |
| ExecutorOverflow.EntriesWithinClaims | src/arch/task.rs:112-114 | the ready queue's length is bounded by tasks plus hits, with room to spare while any waker is registered |
| ExecutorOverflow.PanicNeedsClaims | src/arch/task.rs:112-114 | a step that panics has tasks plus hits above the queue's capacity |
| ExecutorOverflow.NoOverflowWithinCapacity | src/arch/task.rs:39 | no run panics while tasks plus hits stay within 100 |
| ExecutorOverflow.PanicExactly | src/arch/task.rs:44-50 | a step of a reachable state panics exactly if it spawns or wakes onto a full ready queue; the duplicate-id panic and the `expect` in `poll_next` are unreachable |
| ExecutorOverflow.RunPanicsExactly | src/arch/task.rs:112-114 | a run panics exactly if one of its events meets a full ready queue |
| ExecutorOverflow.Lap | src/driver_framework/drivers/ps2kbd.rs:132-134 | one more stale entry can always be produced on a device that can hold an item, also one of capacity 1 where the second item is dropped |
| ExecutorOverflow.Congest | src/driver_framework/drivers/ps2kbd.rs:132-134 | from any number of stale entries there is an interleaving that goes on to overflow the queue |
| ExecutorOverflow.OverflowIsReachable | src/arch/task.rs:112-114 | for every device that can hold an item there is an interleaving that panics, at the first claim past 100, so the bound is tight |
| ExecutorOverflow.SpawnTooMany | src/arch/task.rs:49 | with more than 100 devices, spawning their readers panics |
| ExecutorOverflow.FreeDevice | src/main.rs:283-285 | tasks are at most as many as devices: a device without a reader leaves room for one more |
| ExecutorOverflow.NeverPanicsExactly | src/arch/task.rs:112-114 | no interleaving panics exactly if there are at most 100 devices and none can hold an item |
| ExecutorKernel.Kernel.constructor | src/arch/task.rs:36-42 | a new executor is the initial state |
| ExecutorKernel.Kernel.SpawnTask | src/arch/task.rs:44-50 | the new id is in use nowhere, so only a full queue panics; every earlier task is kept and the device now has a reader |
| ExecutorKernel.Kernel.BootUp | src/main.rs:283-285 | with interrupts arriving throughout, attaching and spawning end with a reader for every named device, as a run of the step system |
| ExecutorKernel.Kernel.Interrupts | src/driver_framework/drivers/ps2kbd.rs:38-53 | any number of interrupts, taken in order, is a run that keeps the program point and reads nothing from any queue |
| ExecutorKernel.Kernel.PopNow | src/driver_framework/drivers/ps2kbd.rs:132 | finds nothing exactly if the queue is empty, and otherwise the reader gets exactly that item |
| ExecutorKernel.Kernel.PollNext | src/driver_framework/drivers/ps2kbd.rs:130-135 | pop, register, pop, take, with interrupts between any two, is a run of the step system that takes exactly the returned item from the stream |
| ExecutorKernel.Kernel.Consume | src/driver_framework/drivers/ps2mouse.rs:332-361 | the consumer's loop ends waiting or completed, and handled exactly the items taken from its queue, in order |
| ExecutorKernel.Kernel.PollTask | src/arch/task.rs:24-26 | a first or later poll is a run that hands its task exactly the items taken from its queue, in order |
| ExecutorKernel.Kernel.ServeTask | src/arch/task.rs:61-76 | polling one task, and removing it if it completed, is a run back to the loop that makes progress |
| ExecutorKernel.Kernel.RunReadyTasks | src/arch/task.rs:52-78 | the loop terminates and returns only when the ready queue is empty and every live task is parked on its waker with an empty input |
| ExecutorKernel.Kernel.SleepIfIdle | src/arch/task.rs:87-96 | goes on after the queue was found filled or an interrupt ended the halt, and stays halted only if no interrupt is to come |
| ExecutorKernel.Kernel.Execute | src/arch/task.rs:80-85 | the nested loops are a run of the step system; they end by a panic with more than 100 claims, or halted with every interrupt taken, nothing to run, and all accepted input of live tasks delivered |
| FrameSpec.MaxAddrIsMax | src/memory/frame.rs:42-50 | the scan finds the highest end of a usable region |
| FrameSpec.ScanFits | src/memory/frame.rs:70-92 | a placement pass picks the first region that fits |
| FrameSpec.FitIsSound | src/memory/frame.rs:74-91 | a fit is page aligned, inside its region and at or above the kernel end |
| FrameSpec.PlacementIsSound | src/memory/frame.rs:68-105 | the bitmap lies in a usable region and overlaps the kernel range only if the first pass found nothing |
| FrameSpec.NoBitmapExactly | src/memory/frame.rs:95-118 | `init` gives up exactly when the first region with room for the bitmap, if any, begins at frame 0 and no region has room above a kernel end other than 0 |
| FrameSpec.AllocatableExactly | src/memory/frame.rs:151-175 | a frame is to be handed out exactly if all its bytes are in one usable region, it begins at or above the kernel end, and none of its bytes is in the bitmap |
| FrameSpec.PlacementAtZeroIsNotFound | src/memory/frame.rs:95-108 | a memory map whose second region fits the bitmap but which `init` rejects |
| FrameSpec.NextFitIsNearest | src/memory/frame.rs:228-253 | the choice is the nearest free frame in cyclic order from the cursor, never a held one, and missing only when nothing is free |
| FrameSpec.RunConserves | src/memory/frame.rs:190-254 | over every run free and held frames stay disjoint and their union is the initial free set |
| FrameAllocator.WithBitChangesOne | src/memory/frame.rs:136-141 | setting or clearing one bit of a byte leaves the other seven |
| FrameAllocator.MaskIsShift | src/memory/frame.rs:139 | bit k of a bitmap byte is 1 shifted left by k |
| FrameAllocator.SetBit | src/memory/frame.rs:132-142 | changes one frame's bit, ignores frames out of range, writes no byte outside the bitmap |
| FrameAllocator.SetRange | src/memory/frame.rs:144-148 | sets the bits of exactly a range of frames |
| FrameAllocator.FillBitmap | src/memory/frame.rs:124 | marks every frame used |
| FrameAllocator.ClearUsable | src/memory/frame.rs:151-159 | frees exactly the frames of usable regions |
| FrameAllocator.BuildBitmap | src/memory/frame.rs:120-175 | a frame is free exactly if usable, at or above the rounded-up kernel end and outside the bitmap |
| FrameAllocator.FindMaxAddr | src/memory/frame.rs:42-50 | computes the highest usable address |
| FrameAllocator.Place | src/memory/frame.rs:70-105 | one placement pass, with 0 for not found |
| FrameAllocator.Allocator.constructor | src/memory/frame.rs:36-186 | `init` is exact: the free set, the bitmap's place, the empty allocator, and no byte outside the bitmap written |
| FrameAllocator.Allocator.TestBit | src/memory/frame.rs:200-208 | reports a frame used exactly if it is not free |
| FrameAllocator.Allocator.Search | src/memory/frame.rs:229-239 | finds the lowest free frame of a range |
| FrameAllocator.Allocator.AllocateFrame | src/memory/frame.rs:223-254 | returns the next-fit choice, removes exactly it from the free set, moves the cursor past it, writes only the bitmap |
| FrameAllocator.Allocator.FreeFrame | src/memory/frame.rs:190-198 | adds exactly the frame to the free set and writes only the bitmap |
| FrameAllocator.Allocator.Store | src/memory/frame.rs:170-175 | a store outside the bitmap's frames leaves the free set as it is |
| FrameAllocator.FreeIsOutsideBitmap | src/memory/frame.rs:170-175 | the bitmap's own frames are never free |
| FrameAllocator.Drive | src/memory/frame.rs:190-254 | any run of allocations, releases and client writes behaves as the set machine: writes never disturb the bitmap, the bitmap never disturbs client data, frames are conserved |
| MemRoutines.Memmove | src/rlib/mem.rs:198-249 | the destination holds the old source bytes for every length, alignment and overlap, and nothing else changes |
| MemRoutines.MoveForward | src/rlib/mem.rs:203-224 | upward align, chunk and remainder phases copy exactly, even at distances under 16 |
| MemRoutines.MoveBackward | src/rlib/mem.rs:225-246 | downward align, chunk and remainder phases copy exactly, even at distances under 16 |
| MemRoutines.Memcpy | src/rlib/mem.rs:6-52 | copies exactly through its four phases for disjoint ranges and for a destination at or below the source |
| MemRoutines.Memset | src/rlib/mem.rs:57-95 | fills exactly the range through its four phases |
| MemRoutines.SlowByteCmp | src/rlib/mem.rs:186-195 | the signed difference at the first mismatch, or 0 |
| MemRoutines.DifferenceOrders | src/rlib/mem.rs:97-103 | the sign of that difference is the lexicographic order and 0 means equal |
| MemRoutines.MovemaskFull | src/rlib/mem.rs:114-117 | a movemask is all ones exactly for equal bytes |
| MemRoutines.Movemask16 | src/rlib/mem.rs:117-119 | a 16-byte movemask means equal at 0xFFFF and is never -1 |
| MemRoutines.CompareChunk | src/rlib/mem.rs:156-169 | one mask test either decides the comparison or advances it |
| MemRoutines.MemcmpWith | src/rlib/mem.rs:107-184 | tested against 0xFFFF the loops compute the promised result; tested against -1, that of the first 16 bytes |
| MemRoutines.Memcmp | src/rlib/mem.rs:107-184 | as written, the result is that of the first min(len, 16) bytes |
| MemRoutines.MemcmpIsRightExactly | src/rlib/mem.rs:119 | that is the promised result exactly if the range is short, the first 16 bytes differ, or the rest is equal |
| MemRoutines.MemcmpMissesByteSeventeen | src/rlib/mem.rs:119 | 17-byte ranges that differ in the last byte are ordered, and reported equal |
| Ioapic.FindFromIsFirst | src/hal/ioapic.rs:123-133 | routing finds the first IOAPIC whose window holds the interrupt, and nothing only if none does |
| Ioapic.ServedIsOwned | src/hal/ioapic.rs:138-142 | an interrupt is served exactly if some entry owns it |
| Ioapic.RegisterIndexWraps | src/hal/ioapic.rs:145-146 | the 8-bit register index is 0x10 plus twice the entry modulo 256, right exactly for entries below 120 |
| Ioapic.UnmaskBits | src/hal/ioapic.rs:234 | clears bit 16 and keeps every other bit: vector, delivery mode, polarity, trigger mode |
| Ioapic.WithVectorBits | src/hal/ioapic.rs:286 | replaces the low eight bits by the vector and keeps every bit from 8 up |
| Ioapic.ProgrammedIs | src/hal/ioapic.rs:168-178 | an override's entry is 0x10000 plus the vector byte, all other bits zero, high dword 0 |
| Ioapic.EnabledBits | src/hal/ioapic.rs:232-236 | enabling clears bit 16, keeps the other low bits and sets the high dword to the APIC id in its top byte |
| Ioapic.RetargetedBits | src/hal/ioapic.rs:284-292 | retargeting also replaces the vector; bits 8 to 15 and from 17 up are kept |
| Ioapic.BootedEntry | src/hal/hal.rs:86-93 | with overrides, a legacy interrupt boots as exactly 0x20 plus its number, another named one as exactly its last override's vector, both to this CPU and with no other bit set |
| Ioapic.EntryWritten | src/hal/ioapic.rs:147-148 | high then low register writes change one entry of one table, in two visible steps |
| Ioapic.Board.FindIoapic | src/hal/ioapic.rs:123-133 | computes the routing |
| Ioapic.Board.WriteRedirection | src/hal/ioapic.rs:137-154 | writes exactly the entry that owns the interrupt, succeeds exactly for served ones, and keeps a masked board masked after each register write |
| Ioapic.Board.ApplyIsos | src/hal/ioapic.rs:157-189 | every owned entry becomes what the overrides make of it, all others are unchanged, everything stays masked |
| Ioapic.Board.ApplyFallback | src/hal/ioapic.rs:198-210 | exactly the served interrupts below 16 get masked vector 0x20 plus their number |
| Ioapic.Board.Update | src/hal/ioapic.rs:223-238 | read-modify-write of one entry; safe after each register write if both halves are |
| Ioapic.Board.EnableIsos | src/hal/ioapic.rs:215-269 | with overrides, exactly the named and legacy interrupts are unmasked to this CPU, vectors kept; without, nothing changes; safe after each register write |
| Ioapic.Board.UnmaskGsi | src/hal/ioapic.rs:273-298 | retargets exactly one interrupt; safe after each register write for vectors from 32 |
| Ioapic.Board.Boot | src/hal/hal.rs:86-93 | from a masked board and for any overrides and later unmasks: the final table composes all phases; with overrides every owned legacy entry no later unmask names is exactly 0x20 plus its number to this CPU; the board ends safe exactly if the vector of every owned entry fits; and if those of the overrides and of all later unmasks do, it is safe after every register write |
| Ioapic.EntrySafeExactly | src/hal/ioapic.rs:273-298 | an entry ends safe exactly if its last later unmask has a vector from 32 up or, without one, its last override a source below 224 |
| Ioapic.LastIsoWins | src/hal/ioapic.rs:164-180 | the last override naming an interrupt decides its entry |
| Ioapic.NamedOrKept | src/hal/ioapic.rs:164-188 | an interrupt no override names keeps its entry |
| Ioapic.OverrideSurvivesExactly | src/hal/hal.rs:89-93 | an override's vector survives the fallback exactly for interrupts from 16 up or identity mappings |
| Ioapic.TimerOverrideIsLost | src/hal/hal.rs:89-93 | the override of IRQ 0 to interrupt 2 boots at vector 0x22 instead of 0x20 |
| Ioapic.BootSafeExactly | src/hal/ioapic.rs:176-178 | a booted entry is safe exactly if its interrupt is below 16 or its last override has a source below 224 |
| Ioapic.HighSourceHitsExceptions | src/hal/ioapic.rs:176-178 | an override with source 224 on interrupt 16 boots unmasked at vector 0, and does not fit |
| Ioapic.BootUnmasksExactly | src/hal/ioapic.rs:243-268 | booting unmasks exactly the named and legacy interrupts, keeps vectors, leaves the rest |
| PciBars.ClearLowOnes | src/devices/pci.rs:98-99 | writing all ones reads back the complement of the size |
| PciBars.ClearLowRounds | src/devices/pci.rs:97-99 | a block's register rounds an address down to a multiple of its size |
| PciBars.ClearLowBits | src/devices/pci.rs:97-99 | a block's register keeps exactly the address bits from the block size up |
| PciBars.ReportsClaim | src/devices/pci.rs:88-147 | a slot that follows the sizing rule is reported with its exact base and power-of-two size, an IO slot of `n` decoded bits with 2^32 - 2^n more, a 64-bit one together with its upper half |
| PciBars.ReportsAreClaims | src/devices/pci.rs:96-105 | the reported ranges are the decoded ones exactly if every IO BAR decodes all 32 address bits |
| PciBars.IoSizeExactly | src/devices/pci.rs:96-105 | for any number of decoded address bits above the block size, an IO BAR's reported size is true exactly if all 32 are decoded |
| PciBars.SizeRegister | src/devices/pci.rs:137-139 | probes one register and restores it |
| PciBars.SizePair | src/devices/pci.rs:115-124 | probes both halves of a 64-bit BAR and restores both |
| PciBars.ReadSlot | src/devices/pci.rs:87-147 | one round of the loop on any registers, leaving them as they were |
| PciBars.ProbeBars | src/devices/pci.rs:85-148 | every register ends at its original value on any hardware whose registers keep their current value when it is written back; on a conforming function the result lists each slot as reported, and exactly the ranges it decodes iff every IO BAR decodes 32 bits |
| Madt.EntryDecodes | src/devices/acpi/acpi.rs:474-526 | reading back an encoded entry gives what it holds |
| Madt.WalkRoundTrip | src/devices/acpi/acpi.rs:466-533 | walking any list of encoded entries finds exactly its IOAPICs and overrides, in order, and skips the rest |
| Madt.TiledStaysInside | src/devices/acpi/acpi.rs:469-533 | a table whose entries tile it is never read past its end |
| Madt.StaysInsideExactly | src/devices/acpi/acpi.rs:469-533 | the walk reads nothing past the end exactly if the last entry it visits has its header inside and, unless its length is 0, the fields read from it |
| Madt.TruncatedEntryIsOverread | src/devices/acpi/acpi.rs:481-488 | every cut-off IOAPIC entry is recorded from bytes past the table |
| Madt.CutOffTableIsOverread | src/devices/acpi/acpi.rs:436-488 | a table with the APIC signature that passes the checksum and from which `parse_madt` records an IOAPIC made of bytes past its end |
| Madt.ChecksumDetects | src/devices/acpi/acpi.rs:66-70 | changing one byte of a valid table, outside its length field, is always detected |
| Madt.VerifyChecksum | src/devices/acpi/acpi.rs:66-70 | the folded sum decides validity |
| Madt.ParseMadt | src/devices/acpi/acpi.rs:452-534 | a bad checksum yields nothing; otherwise the two lists are those of the walk |
| Madt.MadtRoundTrip | src/devices/acpi/acpi.rs:452-534 | a valid table of encoded entries yields, by increasing positions, one IOAPIC per IOAPIC entry and one override per override entry, each with the fields of its entry, and is not read past its end |
| Madt.OverridesByPosition | src/devices/acpi/acpi.rs:514-526 | the overrides kept are those of the entries, field by field and in order |
| Madt.IoApicsByPosition | src/devices/acpi/acpi.rs:479-490 | the IOAPICs kept are those of the entries, field by field and in order |
| Madt.OverrideByBytes | src/devices/acpi/acpi.rs:595-601 | bus, source, interrupt and flags of an override by byte offset, lowest byte first |
| Madt.IoApicByBytes | src/devices/acpi/acpi.rs:257-263 | id, address and first interrupt of an IOAPIC by byte offset, lowest byte first |
| Madt.ParseMcfg | src/devices/acpi/acpi.rs:641-682 | yields exactly floor((len - 44) / 16) allocations, each the one at its offset |
| Madt.McfgRoundTrip | src/devices/acpi/acpi.rs:641-682 | a table of encoded allocations yields exactly that list |
| Madt.AllocationByBytes | src/devices/acpi/acpi.rs:296-302 | base, segment and buses of an allocation by byte offset, lowest byte first |
| MousePackets.FramingIsLossless | src/driver_framework/drivers/ps2mouse.rs:54-92 | for every byte stream, dropped bytes, packets and the packet in progress spell exactly the bytes received; headers have bit 3 set and the state stays within 0 to 2 |
| MousePackets.FramingRoundTrip | src/driver_framework/drivers/ps2mouse.rs:54-92 | any mixture of packets with valid headers and bytes that cannot be headers is framed exactly as sent |
| MousePackets.PacketsRoundTrip | src/driver_framework/drivers/ps2mouse.rs:73-87 | any list of sendable packets is received as that list |
| MousePackets.ThreeBytes | src/driver_framework/drivers/ps2mouse.rs:56-87 | between packets, a byte with bit 3 set and the next two are one packet: buttons, and movements right and up in two's complement |
| MousePackets.BytesAreConserved | src/driver_framework/drivers/ps2mouse.rs:56-91 | bytes received are three per packet plus the dropped ones plus the state |
| MousePackets.MouseDriver.IrqByte | src/driver_framework/drivers/ps2mouse.rs:47-94 | is one step of the framing, on the driver's fields |
| Cursor.RestoreUncovers | src/driver_framework/drivers/ps2mouse.rs:148-160 | putting the saved window back gives the image under the cursor, whatever was drawn inside the window |
| Cursor.RedrawShows | src/driver_framework/drivers/ps2mouse.rs:145-197 | a redraw that moves uncovers the image under the cursor, even for overlapping windows; one in place takes what is shown, arrow and all, as that image |
| Cursor.PlotShows | src/driver_framework/drivers/vbe_vga.rs:468-476 | a pixel written by other code reaches the image under the cursor only outside its window |
| Cursor.RunShows | src/driver_framework/drivers/ps2mouse.rs:106-199 | one more redraw extends any run of redraws and writes |
| Cursor.RunPlots | src/driver_framework/drivers/vbe_vga.rs:468-476 | one more write by other code extends any run |
| Cursor.SeamlessExactly | src/driver_framework/drivers/ps2mouse.rs:106-199 | at every moment of a run the picture drawn is intact under one whole arrow exactly if each redraw moves the cursor or cannot be seen, and each write is outside the window or changes nothing |
| Cursor.RunIsSeamless | src/driver_framework/drivers/ps2mouse.rs:106-199 | after harmless actions the framebuffer is the picture as drawn without a cursor, with one arrow |
| Cursor.TextSurvivesExactly | src/driver_framework/drivers/ps2mouse.rs:148-160 | a pixel drawn while the cursor is shown outlives the next move exactly if it is outside the window |
| Cursor.TextIsLost | src/main.rs:238-240 | a concrete write beside the arrow that the next move erases |
| Cursor.PathShows | src/driver_framework/drivers/ps2mouse.rs:106-199 | along every path of redraws alone the framebuffer is one arrow over the base stained where a position was drawn twice in a row |
| Cursor.CleanExactly | src/driver_framework/drivers/ps2mouse.rs:150 | a path leaves the base clean exactly if no position is repeated with the arrow visible there |
| Cursor.RunIsClean | src/driver_framework/drivers/ps2mouse.rs:106-199 | without a visible repeat the framebuffer is the clean image with one arrow |
| Cursor.RepeatSavesTheArrow | src/driver_framework/drivers/ps2mouse.rs:150-187 | after a repeat the saved background holds the arrow |
| Cursor.CursorDriver.Clamp | src/driver_framework/drivers/ps2mouse.rs:137-144 | the position is clamped so that the window fits the screen |
| Cursor.CursorDriver.RestoreWindow | src/driver_framework/drivers/ps2mouse.rs:152-158 | the pixel loops put back exactly the window |
| Cursor.CursorDriver.CaptureWindow | src/driver_framework/drivers/ps2mouse.rs:164-184 | the pixel loops read exactly the window |
| Cursor.CursorDriver.DrawArrow | src/driver_framework/drivers/ps2mouse.rs:189-197 | the pixel loops draw exactly the arrow |
| Cursor.PaintIsBitmap | src/driver_framework/drivers/ps2mouse.rs:112-197 | drawing makes a pixel 0xFFFFFFFF exactly at the set bits of the twelve-bit rows, leftmost pixel highest, and leaves every other pixel |
| Cursor.CursorDriver.RedrawCursor | src/driver_framework/drivers/ps2mouse.rs:106-199 | is one redraw at the clamped position |
| Cursor.CursorDriver.HandlePacket | src/driver_framework/drivers/ps2mouse.rs:338-359 | within 16 and in range the cursor moves by exactly dx to the right and dy up; any packet moves each axis by at most 16 in its direction; then it redraws with the window on the screen |
| Cursor.SaturatingAddIsSum | src/driver_framework/drivers/ps2mouse.rs:353-354 | the sum, or the 32-bit bound on its side |
| Cursor.LimitedIsNearest | src/driver_framework/drivers/ps2mouse.rs:342-343 | the number of [-16, 16] nearest to the delta |
| Cursor.ClampedIsNearest | src/driver_framework/drivers/ps2mouse.rs:138-141 | the number of [0, max] nearest to the position |
| Cursor.RouteSums | src/driver_framework/drivers/ps2mouse.rs:332-361 | while movements are within 16 and stay on the screen, each position of the route is the start plus the summed dx and less the summed dy |
| Cursor.PathIsRoute | src/driver_framework/drivers/ps2mouse.rs:332-361 | whatever is drawn between the packets, the cursor visits exactly their clamped route |
| Cursor.CursorDriver.WritePixel | src/driver_framework/drivers/vbe_vga.rs:468-476 | a pixel written by other code, on the framebuffer |
| Cursor.CursorDriver.SetCursorPos | src/driver_framework/drivers/ps2mouse.rs:449-457 | moves the cursor and redraws at the clamped position, from any screen |
| Cursor.CursorDriver.EventLoop | src/driver_framework/drivers/ps2mouse.rs:323-361 | from any screen, any packets with any writes by other code between them perform exactly the run of their redraws and writes |
| Cursor.CursorDriver.Session | src/main.rs:203-208 | from boot: the centre is drawn first, then packets and writes by other code take their course over the image that was on the screen; the cursor visits the centre and then the packets' route |
| MousePath.HandledPackets | src/driver_framework/drivers/ps2mouse.rs:54-92 | the interrupts of a byte stream offer the queue exactly its framed packets, in order |
| MousePath.RunAccepts | src/driver_framework/drivers/ps2mouse.rs:83-87 | over every run a queue accepts exactly the items that found it created and not full |
| MousePath.AcceptsExactly | src/driver_framework/drivers/ps2mouse.rs:84 | the accepted items are a subsequence of those brought, and all of them exactly if each found room |
| MousePath.SubsequencePositions | src/driver_framework/drivers/ps2mouse.rs:84 | what is kept stands at increasing positions of what was brought |
| MousePath.BytesToPackets | src/driver_framework/drivers/ps2mouse.rs:82-87 | for every byte stream and interleaving: at a halt the reader got a subsequence of the framed packets, and all of them exactly if each found the queue created and not full |
| MousePath.BytesToScreen | src/driver_framework/drivers/ps2mouse.rs:323-361 | end to end on the framebuffer: the screen is what the reader's packets and the writes between them leave, the cursor visits the centre and the route of the packets it got, and the route of the bytes if none was dropped |
| VgaText.CharacterOnTape | src/bootvga/vga_buffer.rs:103-123 | a character lands at the cursor's place of the row-after-row tape and changes nothing else |
| VgaText.NewlineOnTape | src/bootvga/vga_buffer.rs:144-152 | a newline moves to the next row and adds a blank one only at the end |
| VgaText.TextOnTape | src/bootvga/vga_buffer.rs:132-141 | text without newlines is contiguous on the tape, whatever it wraps over; bytes 0x20 to 0x7e stand for themselves, others for 0xfe |
| VgaText.LinesOnTape | src/bootvga/vga_buffer.rs:132-152 | text, a newline and text: the second begins in the first column of the row after the one the first ended in, and both are on the tape |
| VgaText.Writer.ClearRow | src/bootvga/vga_buffer.rs:165-173 | blanks exactly one row |
| VgaText.Writer.ShiftUp | src/bootvga/vga_buffer.rs:154-162 | the top row leaves, the others move up, a blank row enters |
| VgaText.Writer.NextLine | src/bootvga/vga_buffer.rs:144-152 | is the page's newline, scrolling at the last row |
| VgaText.Writer.WriteOne | src/bootvga/vga_buffer.rs:100-125 | is the page's write with deferred wrap; the row never leaves the screen, so the branch at line 108 is not taken |
| VgaText.Writer.WriteString | src/bootvga/vga_buffer.rs:132-141 | scrolled rows plus the 25 screen rows equal writing to the unbounded page |
| VgaText.Writer.SetPosition | src/bootvga/vga_buffer.rs:179-185 | moves the cursor on the screen, or nowhere if out of range |
| VgaText.Writer.ClearScreen | src/bootvga/vga_buffer.rs:187-193 | blanks all rows and homes the cursor |
| TscTimer.NoOverflow | src/arch/tsc_timer.rs:112-123 | with 64-bit deltas, a 32-bit period and less than 2^14 ms nothing saturates or overflows |
| TscTimer.CalibrationError | src/arch/tsc_timer.rs:118-123 | the two floors lose less than (1000 + ms) units of hdelta times period |
| TscTimer.Calibrate | src/arch/tsc_timer.rs:104-127 | the stored period is the floored count modulo 2^64, or the previous one when nothing was measured; below 2^14 ms without further condition, and within the error bound, on the samples themselves when no counter wrapped, if the count fits 64 bits |
| TscTimer.WrappingSubIsAdvance | src/arch/tsc_timer.rs:112-113 | the delta is below 2^64 and leads from the first sample to the second modulo 2^64 |
| TscTimer.SaturatingMulIsProduct | src/arch/tsc_timer.rs:118-119 | the product, or the largest 128-bit number if it does not fit |

## Left out

- GDT, IDT, exception handlers, port I/O, CPUID extraction, APIC enabling, PS/2 controller handshakes, ACPI enabling and RSDP scanning: hardware plumbing and device timing, no property beyond reading one line.
- ExecutorOverflow.PanicNeedsClaims: gives a bound in one direction; the exact guard is `ExecutorOverflow.PanicExactly`.
- ExecutorOverflow.NoOverflowWithinCapacity: a sufficient budget for one run; the exact conditions are `ExecutorOverflow.RunPanicsExactly` for a run and `ExecutorOverflow.NeverPanicsExactly` for the devices.
- Madt.TiledStaysInside: the condition a table generator can meet; the exact one is `Madt.StaysInsideExactly`.
- ExecutorKernel.Kernel.Execute: a panic ends the program at once; what the panic handler prints is not modelled.
- `ArrayQueue`, `AtomicWaker`, `OffsetPageTable`, the heap allocator and `pc_keyboard`: library internals; the first two are taken as linearizable.
- `getline` beside `print_keypresses`: two consumers would share one waker; the boot code spawns one consumer per device.
- Wrap-around of the 64-bit task id counter, of addresses and of interrupt numbers: ids, physical addresses (below 2^52) and interrupt windows are unbounded integers here.
- `memory_map` entries that are not page aligned: the boot loader gives frame ranges.
- MemRoutines.Memcpy: does not say what an overlapping copy to a higher address leaves, because `memcpy` promises nothing for it.
- Cursor.CursorDriver.EventLoop: other code draws between packets and on the screen only; an interrupt handler that draws during a redraw is not modelled, and neither is what is printed, which is the console driver's.
- Cursor.CursorDriver.RedrawCursor: pixels are addressed by row and column, the byte pitch of the framebuffer is not modelled, and the screen is at least 12 by 16, with both sides below 2^31.
- Ioapic.Board.WriteReg: each IOAPIC is its own register file; two table entries at one MMIO address are not modelled.
- The VGA hardware cursor (`update_cursor`) and colour selection: one port write and one field.
- The console driver, glyph drawing, DISPI modes, the device manager, the virtual and kernel allocators, PCI capabilities, MSI-X probing, RSDT/XSDT indexing: list handling and field extraction that would only add easy members.
