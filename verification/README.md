# Verified models of kernel protocols and of the XOR system calls

The repository holds Linux 6.6.45 as used in an operating-systems course, two time system calls, and a pair of
parallel XOR encryption system calls. This project models the parts of it with the most intricate behaviour and proves,
for every input, every interleaving or every reachable state, what those parts promise. Each component is a module of
its own with its own state; nothing is assumed about other components beyond the parameters a module names.

| component | files | form |
|---|---|---|
| RCU context tracking under nested NMIs | ContextTracking | class, every read and write a step boundary at which handlers may arrive |
| cpio unpacker | Cpio, CpioArchive, CpioMeaning, LinkHash, UnpackSteps, UnpackProofs, UnpackRuns, UnpackAside, UnpackLimits, Unpacker | class with buffers and action loops, proved against functions on the machine and a byte-wise reference reader |
| CPU hotplug | HotplugWalks, HotplugDirect, HotplugKicks, HotplugCalls, HotplugLaws, Hotplug, HotplugSync, HotplugSyncLive | class for the callback walks, state machine for the handshake |
| process-tree walk | ProcessTree, ProcessTreeLaws, ProcessTreeOrder | loop over a cursor, proved against a recursive walk |
| async cookies | Async, AsyncOnce | state machine over schedulers, workers and waiters |
| irq_work flags | IrqWork, IrqWorkOrder | state machine over callers and per-CPU lists |
| audit tree references | TreeRefs | classes with linked 31-slot nodes |
| kauditd queues | Kauditd, KauditdPlaces, KauditdThread | class with three queues, proved against functions on values |
| audit rules | AuditRule, AuditRuleLaws, AuditRuleAccept, AuditRuleValues, AuditFilter | loops proved against parsing and printing functions |
| crash memory ranges | CrashRanges | class with an array changed in place |
| accounting number formats | Acct | loops over locals |
| XOR workers | XorWorkers | loops over an array, state machine for the schedule |

How the pieces are read:

- Concurrent code is a state machine whose actions are the atomic steps of the source (a locked section, an atomic
  operation, a plain load or store). A run is a sequence of actions; `Exec` gives the state after it, if every action was
  possible. Theorems speak of every run. Memory is sequentially consistent.
- What lies outside the modelled code is a parameter: netlink answers, callback results, file-system operations, memory
  allocation, LSM decisions, user-id maps, visitor answers, when a thread is stopped.
- In `ContextTracking` a `Plan` says which handlers arrive at which step boundary, each handler having a plan of its own;
  quantifying over plans is quantifying over all nestings.
- In the cpio modules `Feed` reads a stream byte by byte. It ends in `Failed` at an error (bad magic, a wrong checksum, junk)
  and in `Bad` at an entry that is set aside or a name without an end, behind which the stream alone does not say what
  happens. The bytes that a buffer holds when it is allocated and those behind a buffer or chunk are parameters. `Run`, `Flush` and `FlushAll` are write_buffer, flush_buffer and a
  whole sequence of chunks as functions on the kernel's machine, with its zero-copy and collecting paths. `Parser` is that
  machine as an object, and is proved to compute these functions on every input.
- In the hotplug modules a walk is described by `Forward`, the callbacks between two states in order; `FailedAt(s, k)` says
  that step s failed at its k-th callback, k being 0 when the failure was injected. `Direct` is the range loop over a table
  with steps of any kind; `Hiding` says that the first callback to fail belongs to a multi-instance step that undoes earlier
  instances and so hides the error.
- Several components have a module that says what their specification functions mean in terms of the raw fields and numbers
  of the source: `CpioMeaning` (which calls an entry leads to), `HotplugCalls` (which callbacks a walk consists of),
  `KauditdPlaces` (where every record of a queue ends up), `AuditRuleAccept` (which field is answered with what and stored
  how), `IrqWorkOrder` (which list an item goes to, and the order of the callbacks). The methods state these meanings too.
- `Wrappers` holds the option and result types that the modules share.

Places where the code and its own description or apparent intent differ; the models follow the code:

- `do_header` sets an entry aside without setting `next_state`. `UnpackAside.CutsAgree` says exactly when what is unpacked
  behind such an entry depends on how the stream was cut into chunks, and `UnpackAside.AsideExample` gives a stream.
- `do_name` takes the name as a C string without looking for its end. `UnpackLimits.NameWithin` says exactly when that string
  stays in the bytes that were gathered and in the chunk or name_buf, and `UnpackLimits.UnendedExample` gives a stream whose
  meaning depends on the cut for this reason.
- `cpuhp_invoke_callback` without `lastp` returns what its last undo callback returned, so the error of a failing instance
  can be lost; `HotplugLaws.ErrorLost` says exactly for which steps, `HotplugLaws.WalkLost` for which walks, and
  `Hotplug.BothWays` that this is the only difference between the direct loop and the AP thread.
- `cpuhp_kick_ap` towards the state the CPU is in returns the result of the kick before, and if that was an error leaves the
  state one too high. `Hotplug.KickTwice` says exactly when a kick leaves such an error behind, and `Hotplug.StaleError` is
  one.
- The bring-up handshake can hang if the architecture restarts an AP that waits in `cpuhp_ap_sync_alive`: when the restart
  comes between the AP's report and the BP's look at it, the BP waits for a CPU that waits to be released.
  `HotplugSyncLive.BootsExactly` says exactly from which states the CPU can still come online, and
  `HotplugSyncLive.HangExample` is a run.
- `crash_exclude_mem_range` stops at the first range it only partly covers; `CrashRanges.ExcludeExact` says exactly when
  that excludes the whole interval. Its check for a free slot sees only a split of the last range;
  `CrashRanges.CrashMem.ExcludeMemRange` says exactly when the last range is moved behind the array.
- `irq_work_single` can clear BUSY early when one item runs on two CPUs at once; `IrqWork.BusyExact` says exactly for which
  sets of CPUs BUSY can be relied on.
- `audit_data_to_entry` stores a field's value only after `audit_field_valid` has looked at it, so the value checks there
  always see zero. `AuditRuleValues.BadPermAccepted` gives a rule accepted with a value they forbid, and
  `AuditRuleValues.ValuesUnchecked` says exactly which accepted rules satisfy them.
- `eat` takes an unsigned int. `UnpackLimits.EndsExactly` says that write_buffer returns from every chunk of n bytes exactly
  if n is less than 2^32, and `UnpackLimits.HugeReached` gives the stream after which it does not.
- The comment in `acct.c` calls the comp2_t format 24 bits with a 5-bit exponent and a 20-bit mantissa; with the leading
  bit implied this makes the code exponent times 2^19 plus fraction, which is how `RawComp2` states it.

## Model

| member | source | states |
|---|---|---|
| ContextTracking.Cpu.constructor | Practica1/linux-6.6.45/kernel/context_tracking.c:29-35 | the boot values: in the kernel, watched, nesting 1, NMI nesting at the non-idle mark |
| ContextTracking.StateIncBits | Practica1/linux-6.6.45/kernel/context_tracking.c:81-114 | adding to the wrapping 32-bit state word adds to its low three bits modulo 8, whatever the counter above them does |
| ContextTracking.Cpu.Nmi | Practica1/linux-6.6.45/kernel/context_tracking.c:204-304 | a complete handler, itself interrupted at any boundary to any depth, leaves both nesting counters, the watched bit and the context bits as they were and raises no warning; the log grew by exactly one exit for every handler that arrived and by exactly the steps of their bodies, its own among them; RCU watched in every body, and the nesting at an exit is 1 exactly for the handler that found RCU idle |
| ContextTracking.Cpu.Interrupted | Practica1/linux-6.6.45/kernel/context_tracking.c:204-304 | the same for any number of handlers arriving at one boundary |
| ContextTracking.Cpu.NmiEnter | Practica1/linux-6.6.45/kernel/context_tracking.c:258-304 | after entry RCU watches, the nesting went up by 1 if RCU was idle and by 2 otherwise, the context bits are unchanged, under any interruptions |
| ContextTracking.Cpu.NmiBody | Practica1/linux-6.6.45/kernel/context_tracking.c:204-304 | a body of n steps logs n steps of its own besides those of the handlers that interrupt it, and leaves counters and state bits as they were |
| ContextTracking.Cpu.NmiExit | Practica1/linux-6.6.45/kernel/context_tracking.c:204-244 | exit restores the nesting from before the handler, logs one exit, and stops watching exactly if the handler had found RCU idle |
| ContextTracking.Cpu.KernelExit | Practica1/linux-6.6.45/kernel/context_tracking.c:124-153 | one level of process nesting less; RCU stops watching and the new context is set exactly at the last level, under any interruptions; it warns exactly about an NMI nesting that is not at the non-idle mark and about a nesting of zero |
| ContextTracking.Cpu.KernelEnter | Practica1/linux-6.6.45/kernel/context_tracking.c:163-191 | one level more; coming from the quiescent state the CPU is back in the kernel state with the NMI nesting reset; it warns exactly about a negative nesting |
| ContextTracking.Cpu.KernelExitState | Practica1/linux-6.6.45/kernel/context_tracking.c:81-94 | the state word after leaving, and a warning exactly if RCU would still be watching |
| ContextTracking.Cpu.KernelEnterState | Practica1/linux-6.6.45/kernel/context_tracking.c:101-114 | the state word after entering, and a warning exactly if RCU would not be watching |
| ContextTracking.Cpu.IdleLoop | Practica1/linux-6.6.45/kernel/context_tracking.c:317-340 | any number of idle periods, each interrupted at will, ends in the kernel state without any warning |
| Cpio.FeedConcat | Practica1/linux-6.6.45/init/initramfs.c:446-477 | the reference reader may be fed in pieces |
| Cpio.CsumIsByteSum | Practica1/linux-6.6.45/init/initramfs.c:41-46 | the running checksum is the byte sum of the body modulo 2^32 |
| CpioMeaning.DigitMeans | Practica1/linux-6.6.45/init/initramfs.c:186-209 | a byte is a digit exactly if it is in one of the two rows of sixteen characters, and its value is its place there |
| CpioMeaning.NumberMeans | Practica1/linux-6.6.45/init/initramfs.c:186-209 | a header field is the number of its hexadecimal digits up to the first other character, behind an optional 0x or 0X |
| CpioMeaning.HeaderMeans | Practica1/linux-6.6.45/init/initramfs.c:186-209 | a header is read exactly for the two magics, and each of its thirteen numbers comes from its own eight bytes, the mode cut to 16 bits |
| CpioMeaning.HeadExactly | Practica1/linux-6.6.45/init/initramfs.c:275-306 | behind any archive, a header is an error exactly if it has another magic, and is otherwise taken in exactly with a name of 1 to 4096 bytes, a body of at most 4096 for a link and none but for files and links |
| CpioMeaning.EarlierIs | Practica1/linux-6.6.45/init/initramfs.c:84-110 | the name a link goes to is that of the first entry since the last trailer with the same device, inode and type that may have other names |
| CpioMeaning.TrailerForgets | Practica1/linux-6.6.45/init/initramfs.c:357-365 | a trailer forgets all names before it |
| CpioMeaning.NameMeans | Practica1/linux-6.6.45/init/initramfs.c:342-399 | the calls do_name makes for any header, name and link table, from the fields of the header; a body follows exactly behind a file that was opened |
| CpioMeaning.EntryLeaves | Practica1/linux-6.6.45/init/initramfs.c:342-433 | each entry of an archive leads to the calls that its own fields, the entries before it and the answers of the file system say |
| CpioMeaning.ArchiveLeaves | Practica1/linux-6.6.45/init/initramfs.c:342-433 | the same for all entries of an archive, one after the other |
| LinkHash.FindLink | Practica1/linux-6.6.45/init/initramfs.c:84-110 | the 32-bucket chained table behaves as a map from (device, inode, type): an old name is found, a new one is appended and found from then on |
| UnpackSteps.Bounded | Practica1/linux-6.6.45/init/initramfs.c:239-306 | what is gathered and still to gather always fits the buffer it goes to, and a symlink leaves room for its terminator |
| UnpackLimits.NameWithin | Practica1/linux-6.6.45/init/initramfs.c:357-399 | the name do_name reads lies, with its NUL, in the N_ALIGN(name_len) gathered bytes exactly if one of them is 0, and in the rest of the chunk or of name_buf exactly if one byte is 0 up to its end |
| UnpackLimits.CopyFits | Practica1/linux-6.6.45/init/initramfs.c:84-110 | the name that find_link copies fits its N_ALIGN(PATH_MAX) bytes exactly if one of so many bytes from its start is 0, which is so whenever it ends where it was gathered |
| UnpackLimits.UnendedExample | Practica1/linux-6.6.45/init/initramfs.c:357-399 | a header with a two-byte name without a NUL: in one chunk the directory gets the name and the byte behind it, with the header in a chunk of its own the name and what name_buf held |
| UnpackProofs.ActionFollows | Practica1/linux-6.6.45/init/initramfs.c:255-433 | every action keeps the machine sane and makes progress in (bytes left, state rank); and unless a write fails or the stream alone does not say, what the rest of the chunk leads to stays the same |
| UnpackProofs.StepUnderway | Practica1/linux-6.6.45/init/initramfs.c:446-454 | the same across any number of actions of one chunk |
| UnpackRuns.RunUnderway | Practica1/linux-6.6.45/init/initramfs.c:446-454 | a whole run of write_buffer stays with the reference reader, and as long as nothing was eaten it is still at the start of a header |
| UnpackRuns.AnyCut | Practica1/linux-6.6.45/init/initramfs.c:446-477 | however a stream is cut into chunks, errors in it included, the machine ends where the reference reader does: same events, an error raised exactly if the reader failed, otherwise same links, offset and phase; without write errors from outside no write error is raised |
| UnpackAside.ReadsAgain | Practica1/linux-6.6.45/init/initramfs.c:275-318 | a collected header that is set aside is parsed again and again to the end of the chunk, and nothing is unpacked |
| UnpackAside.WithCut1 | Practica1/linux-6.6.45/init/initramfs.c:275-477 | any beginning up to an entry, a header that is set aside, its filler and any rest, the last three in one chunk: the rest is unpacked |
| UnpackAside.WithCut2 | Practica1/linux-6.6.45/init/initramfs.c:239-477 | the same stream with the first byte of that header in a chunk of its own: nothing of the rest is unpacked |
| UnpackAside.MeansOne | Practica1/linux-6.6.45/init/initramfs.c:239-477 | every stream in which no entry is set aside and every name has an end, with whatever errors in it, is unpacked the same for all cuts |
| UnpackAside.CutsAgree | Practica1/linux-6.6.45/init/initramfs.c:239-477 | a stream with events behind a header, with no other entry set aside and an end to every name, is unpacked the same for all cuts exactly if that header has a name of 1 to PATH_MAX bytes, a link target of at most PATH_MAX bytes, and a body only for files and links |
| UnpackAside.AsideExample | Practica1/linux-6.6.45/init/initramfs.c:239-477 | 224 bytes, a nameless header and a directory, that make the directory in one chunk and nothing in two |
| UnpackLimits.HugeReached | Practica1/linux-6.6.45/init/initramfs.c:228-477 | a header with no name and a body of 0xfffffffe bytes, its first byte in a chunk of its own and two bytes behind it: the machine is left with 2^32 bytes to skip and the header to be read again |
| UnpackLimits.RoundAgain | Practica1/linux-6.6.45/init/initramfs.c:228-318 | in that state, with a chunk of 2^32 bytes or more, do_skip and do_header bring the machine back to where it was |
| UnpackLimits.EndsExactly | Practica1/linux-6.6.45/init/initramfs.c:228-454 | write_buffer returns from every chunk of n bytes, after any chunks before it, exactly if n < 2^32 |
| Unpacker.Parser.constructor | Practica1/linux-6.6.45/init/initramfs.c:483-505 | buffers of their sizes, an empty link table, and the machine as unpack_to_rootfs sets it up |
| Unpacker.Parser.DoCollect | Practica1/linux-6.6.45/init/initramfs.c:261-273 | copies into the buffer within its bounds, keeps the rest of name_buf, and does exactly the collecting step |
| Unpacker.Parser.DoReset | Practica1/linux-6.6.45/init/initramfs.c:320-327 | the loop over zeros does exactly the reset step |
| Unpacker.Parser.MaybeLink | Practica1/linux-6.6.45/init/initramfs.c:342-352 | links to the earlier name, or remembers this one, as the reference does |
| Unpacker.Parser.StringAtCollected | Practica1/linux-6.6.45/init/initramfs.c:357-399 | reads the C string at `collected` from the chunk or from name_buf, left-over bytes included, and from what lies behind |
| Unpacker.Parser.DoName | Practica1/linux-6.6.45/init/initramfs.c:357-399 | the file-system calls for the name that is read, their order, owner, mode, time and link target are those the fields of the header and the link table say; the body is copied next exactly behind a file that was opened |
| Unpacker.Parser.DoSymlink | Practica1/linux-6.6.45/init/initramfs.c:423-433 | terminates the target inside the buffer, reads name and target from it, and makes the link |
| Unpacker.Parser.Xwrite | Practica1/linux-6.6.45/init/initramfs.c:25-54 | for every sequence of write results: retries EINTR and EAGAIN, adds partial writes, stops at zero or an error, and sums exactly the bytes written |
| Unpacker.Parser.Copy | Practica1/linux-6.6.45/init/initramfs.c:401-421 | one piece of a file body: written, closed and checked against the checksum at its end |
| Unpacker.Parser.ReadInto | Practica1/linux-6.6.45/init/initramfs.c:239-253 | reads in place or begins to collect, and keeps the buffers in agreement with the machine |
| Unpacker.Parser.DoStart | Practica1/linux-6.6.45/init/initramfs.c:255-259 | does exactly the starting step |
| Unpacker.Parser.DoHeader | Practica1/linux-6.6.45/init/initramfs.c:275-306 | parses the bytes that the buffer or the chunk holds and does exactly the header step, all branches |
| Unpacker.Parser.DoSkip | Practica1/linux-6.6.45/init/initramfs.c:308-318 | does exactly the skipping step |
| Unpacker.Parser.Dispatch | Practica1/linux-6.6.45/init/initramfs.c:435-444 | each state runs its own action |
| Unpacker.Parser.WriteBuffer | Practica1/linux-6.6.45/init/initramfs.c:446-454 | terminates on every chunk below 2^32 bytes, consumes between 0 and its length, and does exactly the run of actions, well formed or not |
| Unpacker.Parser.Resume | Practica1/linux-6.6.45/init/initramfs.c:463-472 | goes back to Start only at an offset divisible by 4, and otherwise raises an error and loads the same bytes again |
| Unpacker.Parser.FlushBuffer | Practica1/linux-6.6.45/init/initramfs.c:456-477 | reads one chunk: -1 and no change after an error, otherwise its length and exactly the specified machine, well formed or not |
| Unpacker.Unpack | Practica1/linux-6.6.45/init/initramfs.c:456-543 | the machine after any chunks is the specified one; however a stream is cut in which no entry is set aside and every name has an end, the file-system events are those of the whole stream and an error is raised exactly if the stream holds one, otherwise link table and offset agree too |
| Unpacker.UnpackArchive | Practica1/linux-6.6.45/init/initramfs.c:186-543 | for every list of well-formed entries and every cut of their encoding, the calls made are those that the entries say, one after the other: names, link targets, attributes and contents |
| CpioArchive.HexRoundTrip | Practica1/linux-6.6.45/init/initramfs.c:186-209 | parsing the hexadecimal form of a number gives the number |
| CpioArchive.HeaderRoundTrip | Practica1/linux-6.6.45/init/initramfs.c:186-209 | parsing the encoding of a header gives the header |
| CpioArchive.NameRoundTrip | Practica1/linux-6.6.45/init/initramfs.c:357-399 | the NUL-terminated, padded name reads back as the name |
| CpioArchive.ReadEntry | Practica1/linux-6.6.45/init/initramfs.c:275-433 | reading one encoded entry performs it and ends at the next boundary |
| CpioArchive.FeedArchive | Practica1/linux-6.6.45/init/initramfs.c:186-477 | reading an archive performs its entries in order |
| CpioArchive.ChecksumExactly | Practica1/linux-6.6.45/init/initramfs.c:401-421 | a file behind any archive, with any checksum: the reader fails exactly if the format carries a checksum, the file was opened and the sum of its bytes modulo 2^32 is another; the whole body was written then and the file closed |
| HotplugWalks.ForwardSplit | Practica1/linux-6.6.45/kernel/cpu.c:919-942 | the callbacks of a walk are those of its two halves |
| HotplugCalls.ForwardMeans | Practica1/linux-6.6.45/kernel/cpu.c:919-942 | a walk consists of exactly the startup (or teardown) callbacks of the steps passed, for each instance of a multi-instance step, in the direction of the walk and in the order of the instances |
| HotplugCalls.OnlyOne | Practica1/linux-6.6.45/kernel/cpu.c:919-942 | with distinct instances that leaves only one sequence of callbacks |
| HotplugCalls.UndoneMeans | Practica1/linux-6.6.45/kernel/cpu.c:231-250 | the instances undone after a failing one are those before it, if the step has the opposite callback |
| HotplugCalls.UndoMeans | Practica1/linux-6.6.45/kernel/cpu.c:767-781 | what the second kick has to undo: the instances before the failing one, then the callbacks of the walk back |
| Hotplug.Cpu.InstancesToLast | Practica1/linux-6.6.45/kernel/cpu.c:210-230 | runs the instances up to the one lastp names, stops at the first failure and records it in lastp |
| Hotplug.Cpu.InstancesAll | Practica1/linux-6.6.45/kernel/cpu.c:210-250 | runs all instances; after a failure it undoes exactly the instances before and returns what the last undo returned |
| Hotplug.Cpu.Invoke | Practica1/linux-6.6.45/kernel/cpu.c:170-250 | every branch: an injected failure is -11 and clears the injection; empty callback, single, one instance, all instances with and without lastp; without lastp the result and the calls are those of `Instances` |
| Hotplug.Cpu.NextState | Practica1/linux-6.6.45/kernel/cpu.c:919-942 | going up it stops at the next step with a startup callback, going down at the next with a teardown callback, and stands behind that step; no step between has one; without such a step it stands at the target |
| Hotplug.Cpu.InvokeRange | Practica1/linux-6.6.45/kernel/cpu.c:944-981 | for every table, result, state, calls and injected failure are those of `Direct`; success, unless an error was hidden, means that exactly the callbacks of the steps passed were called in order |
| HotplugDirect.DirectSplit | Practica1/linux-6.6.45/kernel/cpu.c:944-981 | the loop over a range is the loop over its first part and, if that succeeds, over the rest |
| HotplugDirect.DirectSucceeds | Practica1/linux-6.6.45/kernel/cpu.c:944-981 | over steps of any kind, callbacks that succeed with no injected failure among them are all run in order and the target is reached |
| HotplugDirect.Classify | Practica1/linux-6.6.45/kernel/cpu.c:944-981 | every run of the loop is the plain walk up to the first failing callback, or that first failure belongs to an instance with earlier ones that the step undid |
| HotplugDirect.DirectPlain | Practica1/linux-6.6.45/kernel/cpu.c:944-981 | unless a failure is hidden in that way, the loop runs the callbacks in order up to the first that fails, returns its error and stands just behind its step |
| Hotplug.Cpu.SetState | Practica1/linux-6.6.45/kernel/cpu.c:699-715 | the fields a walk starts from |
| Hotplug.Cpu.ResetState | Practica1/linux-6.6.45/kernel/cpu.c:717-748 | direction reversed, state moved back over the failing step unless it is half done; nothing if already rolling back |
| Hotplug.Cpu.UpCallbacks | Practica1/linux-6.6.45/kernel/cpu.c:991-1023 | for every table: success runs all startup callbacks; after a failure the loop runs back over the steps passed, and if the teardown callbacks it then calls succeed, exactly the non-empty ones run in reverse, back to the previous state; unless an error was hidden, the error is that of the first failing callback; where the CPU cannot be rolled back it stays below the failing step |
| Hotplug.Cpu.DownCallbacks | Practica1/linux-6.6.45/kernel/cpu.c:1409-1429 | the mirror image |
| Hotplug.Cpu.ThreadFun | Practica1/linux-6.6.45/kernel/cpu.c:1049-1112 | one callback per call, completion signalled exactly when there is no more to run |
| Hotplug.Cpu.Kick | Practica1/linux-6.6.45/kernel/cpu.c:751-765 | after a kick the thread runs the walk of the range loop and signals completion exactly once; nothing happens at the target |
| Hotplug.Cpu.Unwind | Practica1/linux-6.6.45/kernel/cpu.c:775-778 | if the undo callbacks that are made succeed, the second kick undoes exactly the instances before the failing one, then the earlier steps, back to the previous state; if there is nothing to undo the result of the first kick stays, otherwise it becomes 0 |
| Hotplug.Cpu.KickAp | Practica1/linux-6.6.45/kernel/cpu.c:767-781 | multi-instance steps included: success means that exactly the callbacks of the steps passed were called in order and all returned 0; failure is the error of the first that did not and, if the undo callbacks made succeed, exact rollback, with the error left in `result` exactly if the very first step failed whole; at the target already, the result of the kick before and, after an error, a state one too high |
| Hotplug.KickTwice | Practica1/linux-6.6.45/kernel/cpu.c:767-781 | a kick, then one to the state the CPU is left in: after a rollback that succeeded or had nothing to do, the second returns an error exactly if the first failed at its very first step, and it is the same error |
| Hotplug.StaleError | Practica1/linux-6.6.45/kernel/cpu.c:767-781 | a table and two kicks that both return -5 and leave the CPU in state 1 |
| Hotplug.BothWays | Practica1/linux-6.6.45/kernel/cpu.c:751-981 | two CPUs in the same state, one walked by the direct loop and one by its thread: the calls are the same exactly if no multi-instance step hides a failure, and then state, result and injected failure are the same too |
| HotplugLaws.WalkDeterministic | Practica1/linux-6.6.45/kernel/cpu.c:944-981 | a walk has one outcome |
| HotplugLaws.SameUnlessHiding | Practica1/linux-6.6.45/kernel/cpu.c:944-981 | the loop over any table does what a walk does exactly if no step hides a failure; its calls alone already differ otherwise |
| HotplugLaws.WalkBackMirrors | Practica1/linux-6.6.45/kernel/cpu.c:919-942 | over single-instance steps with both callbacks or neither, walking back is the walk reversed |
| HotplugLaws.ErrorLost | Practica1/linux-6.6.45/kernel/cpu.c:231-250 | over all callback results with which undo callbacks succeed, a failing instance can come back as 0 exactly for a step with more than one instance and an opposite callback |
| HotplugLaws.WalkLost | Practica1/linux-6.6.45/kernel/cpu.c:231-981 | under the same condition a walk can report success at its target although a callback failed exactly if it passes such a step |
| HotplugLaws.WalksOn | Practica1/linux-6.6.45/kernel/cpu.c:231-981 | the loop then undoes the instances and goes on behind the step as if it had succeeded |
| HotplugLaws.ErrorLostExample | Practica1/linux-6.6.45/kernel/cpu.c:231-250 | after any history: the second of two instances fails with -12, the first is undone, and 0 is returned |
| HotplugSync.RunInv | Practica1/linux-6.6.45/kernel/cpu.c:300-452 | in every interleaving with timeouts, every read and compare-exchange a step of its own, the word and both sides agree, and the time stamps name the last steps of their kind |
| HotplugSync.LeavesAfterRelease | Practica1/linux-6.6.45/kernel/cpu.c:392-452 | the AP leaves its alive wait only after the BP changed ALIVE to SHOULD_ONLINE, later than that AP's latest report |
| HotplugSync.DeadIsKept | Practica1/linux-6.6.45/kernel/cpu.c:350-370 | a reported DEAD is replaced only by the next boot attempt, never by SHOULD_DIE |
| HotplugSync.CleanupAfterDeath | Practica1/linux-6.6.45/kernel/cpu.c:361-380 | the dead-CPU cleanup comes after the AP's DEAD report, which comes after the start of that takedown |
| HotplugSyncLive.BootsExactly | Practica1/linux-6.6.45/kernel/cpu.c:300-452 | after any run the CPU can still come online, within sixteen steps, exactly if the BP has not released an AP that was restarted behind its back; from such a state it never does |
| HotplugSyncLive.TakedownCompletes | Practica1/linux-6.6.45/kernel/cpu.c:350-380 | from every moment of a takedown, whichever side is ahead, the cleanup can still be reached within eight steps |
| HotplugSyncLive.HangExample | Practica1/linux-6.6.45/kernel/cpu.c:392-452 | two attempts to boot a slow AP, after which both sides wait for each other |
| ProcessTree.WalkProcessTree | Practica1/linux-6.6.45/kernel/fork.c:3214-3244 | on every consistent tree the stackless walk terminates and makes exactly the calls of the recursive preorder walk |
| ProcessTreeLaws.GroupRules | Practica1/linux-6.6.45/kernel/fork.c:3214-3244 | every task visited is a child in the top group or in a group whose leader was answered positively before; a negative answer comes exactly with the last call of a stopped walk |
| ProcessTreeLaws.GroupComplete | Practica1/linux-6.6.45/kernel/fork.c:3214-3244 | a walk that was not stopped visits all children of the top group and of every group entered |
| ProcessTreeLaws.GroupOnce | Practica1/linux-6.6.45/kernel/fork.c:3214-3244 | no task is visited twice |
| ProcessTreeOrder.GroupOrder | Practica1/linux-6.6.45/kernel/fork.c:3214-3244 | the calls come in preorder: a task before all that is below it, and of two children of a group, by thread and then by place, the first with all that is below it before the other |
| ProcessTreeOrder.PrecedesStrict | Practica1/linux-6.6.45/kernel/fork.c:3214-3244 | that order is strict, so it leaves one way to arrange the calls |
| Async.RunKeeps | Practica1/linux-6.6.45/kernel/async.c:87-224 | in every run the pending lists are strictly sorted by cookie, hold exactly the live entries, and entry_count counts these |
| Async.LowestMeans | Practica1/linux-6.6.45/kernel/async.c:87-110 | a lowest cookie not below the bound means that everything below it on that list is gone |
| Async.WaitGuarantee | Practica1/linux-6.6.45/kernel/async.c:308-319 | when the wait returns, the function of every entry queued before on that domain (or any registered one) with a lower cookie has returned |
| Async.VisibleInOrder | Practica1/linux-6.6.45/kernel/async.c:18-36 | if default-domain functions wait for their own cookie first, visible operations of queued entries come in cookie order |
| Async.HeadFinishes | Practica1/linux-6.6.45/kernel/async.c:115-146 | in every state that satisfies the invariant the lowest pending entry of any domain can run to its end; its own wait does not hold it up |
| Async.Drains | Practica1/linux-6.6.45/kernel/async.c:115-146 | from every such state the workers alone can empty any domain, in at most five steps per entry |
| Async.DrainsAll | Practica1/linux-6.6.45/kernel/async.c:115-146 | from every such state the workers alone can bring all entries of all domains to their end |
| Async.AlwaysDrains | Practica1/linux-6.6.45/kernel/async.c:329-332 | every run can be continued by workers alone until entry_count is 0, every entry is gone, and a full wait returns on every domain and on all registered ones |
| AsyncOnce.RunsOnce | Practica1/linux-6.6.45/kernel/async.c:115-180 | in every run each entry is started, returns and is removed at most once and in this order, as its phase says, and the next cookie is one more than the cookies handed out |
| IrqWork.NextKeeps | Practica1/linux-6.6.45/kernel/irq_work.c:57-253 | every step of every caller and runner keeps the agreement between flag words, lists and who has to see an item through; which list and in which order is stated by the members of IrqWorkOrder |
| IrqWork.OnOneList | Practica1/linux-6.6.45/kernel/irq_work.c:57-128 | in every run an item is on at most one list, once, and its successful claims are its callback starts plus the one pending |
| IrqWorkOrder.EnqueueMeans | Practica1/linux-6.6.45/kernel/irq_work.c:87-112 | an item goes first onto the lazy list of the CPU exactly if it is LAZY, or under PREEMPT_RT not HARD_IRQ, otherwise first onto the raised list; every other list stays as it was |
| IrqWorkOrder.LatestFirst | Practica1/linux-6.6.45/kernel/irq_work.c:87-112 | over any run in which a list is not taken it holds the items linked into it, the latest first, before those it held |
| IrqWorkOrder.RunInOrder | Practica1/linux-6.6.45/kernel/irq_work.c:201-253 | over any run the callbacks started from a list are the items taken off it, in that order, up to those that still wait |
| IrqWorkOrder.FromStart | Practica1/linux-6.6.45/kernel/irq_work.c:201-253 | from the start, what was called from a list and what waits in its runner is all that was ever taken off it |
| IrqWorkOrder.BitsStay | Practica1/linux-6.6.45/kernel/irq_work.c:57-253 | the LAZY and HARD_IRQ bits of an item never change |
| IrqWork.Undisturbed | Practica1/linux-6.6.45/kernel/irq_work.c:201-216 | between the load and the store that clear PENDING no step of anybody else changes the flag word |
| IrqWork.LoadThenStore | Practica1/linux-6.6.45/kernel/irq_work.c:210-212 | in every run, what a runner is about to store is the current word without PENDING, and PENDING is still set |
| IrqWork.BusyMeansInUse | Practica1/linux-6.6.45/kernel/irq_work.c:201-300 | for work queued on one CPU, BUSY is set exactly while it is claimed, queued, waiting or in its callback |
| IrqWork.BusyClearedEarly | Practica1/linux-6.6.45/kernel/irq_work.c:222-228 | for any item and any two CPUs there is a run in which BUSY is clear while the callback is running |
| IrqWork.BusyExact | Practica1/linux-6.6.45/kernel/irq_work.c:201-300 | for any set of CPUs an item may be queued on: BUSY clear means not in use in all runs exactly if the set has no two members |
| TreeRefs.Context.PutTreeRef | Practica1/linux-6.6.45/kernel/auditsc.c:232-252 | appends to the sequence of references, or fails exactly when every slot of every node is taken |
| TreeRefs.Context.GrowTreeRefs | Practica1/linux-6.6.45/kernel/auditsc.c:254-269 | a new node behind the last one leaves the sequence alone; on no memory nothing changes |
| TreeRefs.Context.UnrollTreeRefs | Practica1/linux-6.6.45/kernel/auditsc.c:271-297 | back at any earlier end of data, the sequence is the earlier one, and each removed reference was dropped once, in order |
| TreeRefs.Context.MatchTreeRefs | Practica1/linux-6.6.45/kernel/auditsc.c:310-331 | finds a match exactly if some reference of the sequence matches |
| TreeRefs.Context.HandleOne | Practica1/linux-6.6.45/kernel/auditsc.c:2085-2112 | the looked-up chunk is appended, or given back with the context made auditable when no slot can be had |
| TreeRefs.Context.HandlePath | Practica1/linux-6.6.45/kernel/auditsc.c:2114-2170 | over all retries: the references of the climb that went through are kept, all others given back, auditable exactly on loss |
| TreeRefs.ClimbConserves | Practica1/linux-6.6.45/kernel/auditsc.c:2114-2170 | the references looked up are exactly those kept and those given back |
| TreeRefs.ClimbMeans | Practica1/linux-6.6.45/kernel/auditsc.c:2114-2170 | the climbs go on up to the first that fits without a rename racing, whose references are kept, or that does not fit with no memory left, which is a loss; every climb that does not fit brings 31 more slots |
| Kauditd.UnicastMeaning | Practica1/linux-6.6.45/kernel/audit.c:771-793 | a record is retried only after non-fatal errors, and given up at -ECONNREFUSED, at -EPERM or at the limit |
| Kauditd.SendQueueOrder | Practica1/linux-6.6.45/kernel/audit.c:743-800 | exactly the records present at entry are handled: a prefix is delivered, all are multicast once in order if any is, and a drained main queue is empty |
| Kauditd.HoldQueueOrder | Practica1/linux-6.6.45/kernel/audit.c:864-873 | flushing the hold queue delivers a prefix and leaves the rest in order, nothing else changed |
| Kauditd.SendQueueKeeps | Practica1/linux-6.6.45/kernel/audit.c:558-640 | draining a queue neither loses nor doubles a record |
| Kauditd.FlushRetryOrder | Practica1/linux-6.6.45/kernel/audit.c:670-673 | a reset empties the retry queue behind the hold queue |
| Kauditd.PassConserves | Practica1/linux-6.6.45/kernel/audit.c:849-896 | across a pass every record is still queued, delivered, counted as lost or silently dropped, as often as before; silently only when audit_default is off |
| Kauditd.PassBounded | Practica1/linux-6.6.45/kernel/audit.c:577-640 | the retry and hold queues stay within the backlog limit |
| KauditdPlaces.HookPlaces | Practica1/linux-6.6.45/kernel/audit.c:558-640 | what each hook does with one record: the hold queue, the retry queue, a counted loss when there is no room, or silence without audit_default |
| KauditdPlaces.SendRunMeaning | Practica1/linux-6.6.45/kernel/audit.c:743-800 | the records sent are those before the first that is refused after its tries |
| KauditdPlaces.HoldPlaces | Practica1/linux-6.6.45/kernel/audit.c:864-873 | the hold queue: a prefix is delivered, the rest stays in order, and only an error other than -EAGAIN breaks the connection |
| KauditdPlaces.RetryPlaces | Practica1/linux-6.6.45/kernel/audit.c:876-884 | the retry queue: a prefix is delivered; after -EAGAIN, with audit_default, the refused record stays for a retry and the others go behind the hold queue, otherwise all go behind the hold queue, as far as there is room |
| KauditdPlaces.MainPlaces | Practica1/linux-6.6.45/kernel/audit.c:886-896 | the main queue: all is multicast; connected, a prefix is delivered and the rest goes behind the retry queue; otherwise all goes behind the hold queue, as far as there is room |
| KauditdPlaces.FlushPlaces | Practica1/linux-6.6.45/kernel/audit.c:649-674 | a reset puts the retry queue behind the hold queue as far as there is room |
| KauditdPlaces.PassMeans | Practica1/linux-6.6.45/kernel/audit.c:849-896 | a whole pass in terms of these lists, whichever of the three queues breaks the connection |
| KauditdPlaces.PassLosesNothing | Practica1/linux-6.6.45/kernel/audit.c:849-896 | no record is lost without a backlog limit, or while all queues together stay within it |
| KauditdThread.Daemon.RunHook | Practica1/linux-6.6.45/kernel/audit.c:558-640 | the three error hooks: behind the hold queue, or behind the retry queue, if there is room, otherwise counted as lost; dropped without audit_default; the loss counter follows the records lost |
| KauditdThread.Daemon.UnicastSkb | Practica1/linux-6.6.45/kernel/audit.c:771-793 | the retry loop for one record |
| KauditdThread.Daemon.SendQueueSkbs | Practica1/linux-6.6.45/kernel/audit.c:743-800 | the draining loop terminates although its hook may append to the queue, and has exactly the specified effect and result |
| KauditdThread.Daemon.AuditdReset | Practica1/linux-6.6.45/kernel/audit.c:649-674 | nothing for a connection that is not current; otherwise the connection is dropped and the retry queue goes behind the hold queue as far as there is room |
| KauditdThread.Daemon.ThreadPass | Practica1/linux-6.6.45/kernel/audit.c:849-896 | one pass over the three queues leaves every record where `KauditdPlaces.Told` says, list by list, and no record in two places |
| AuditRule.ToOp | Practica1/linux-6.6.45/kernel/auditfilter.c:306-324 | the operator's number, or Audit_bad exactly for an unknown operator |
| AuditRule.Unpack | Practica1/linux-6.6.45/kernel/auditfilter.c:127-150 | a string is taken only if its length is positive, within the buffer and at most PATH_MAX |
| AuditRuleLaws.ParseAllGrows | Practica1/linux-6.6.45/kernel/auditfilter.c:464-600 | parsing fields only adds fields, with known operators, and keeps what was set |
| AuditRuleLaws.ReparseField | Practica1/linux-6.6.45/kernel/auditfilter.c:464-700 | a field printed from the finished rule parses to the same field, the legacy login-uid test included |
| AuditRuleLaws.ExpandClears | Practica1/linux-6.6.45/kernel/auditfilter.c:282-299 | after expansion no class bit is left |
| AuditRuleLaws.ExpandMeaning | Practica1/linux-6.6.45/kernel/auditfilter.c:282-299 | a syscall is in the expanded mask exactly if it was in the mask or belongs to a registered class named in it |
| AuditRuleLaws.RoundTrip | Practica1/linux-6.6.45/kernel/auditfilter.c:449-700 | for every accepted rule with NUL-free strings under identity id maps, printing and parsing gives back that very rule |
| AuditRuleAccept.FieldVerdict | Practica1/linux-6.6.45/kernel/auditfilter.c:327-600 | one field, from tables of the type numbers: accepted exactly if type, operator, list, id, string and file conditions allow it, answered with the right error otherwise, and stored in its place |
| AuditRuleAccept.FieldsVerdict | Practica1/linux-6.6.45/kernel/auditfilter.c:464-600 | any number of fields: all are stored in turn, or the first that is not accepted gives the answer |
| AuditRuleAccept.RuleVerdict | Practica1/linux-6.6.45/kernel/auditfilter.c:238-621 | a whole rule: header, action and field count, then the fields; an inode test for another inode is dropped at the end |
| AuditRuleAccept.OneField | Practica1/linux-6.6.45/kernel/auditfilter.c:327-447 | a rule with one field that needs no string, id or file is accepted exactly if the tables allow it |
| AuditRuleValues.ValuesUnchecked | Practica1/linux-6.6.45/kernel/auditfilter.c:327-600 | the fields of an accepted rule all satisfy audit_field_valid with their final values exactly if the values sent for LOGINUID_SET, PERM, FILETYPE, FIELD_COMPARE and SADDR_FAM are in range |
| AuditRuleValues.BadPermAccepted | Practica1/linux-6.6.45/kernel/auditfilter.c:327-600 | a rule with the permission bits 255 is accepted with that value, which audit_field_valid forbids |
| AuditRuleValues.StringsFit | Practica1/linux-6.6.45/kernel/auditfilter.c:449-700 | the strings printed for an accepted rule, NUL bytes included, fit the buflen bytes that are allocated for them |
| AuditFilter.SyscallClasses.Register | Practica1/linux-6.6.45/kernel/auditfilter.c:168-187 | registers exactly the listed syscalls, or nothing with -EINVAL exactly if one is out of range or the slot is bad or taken |
| AuditFilter.AuditToOp | Practica1/linux-6.6.45/kernel/auditfilter.c:318-324 | the search loop finds the operator's number |
| AuditFilter.ToEntryCommon | Practica1/linux-6.6.45/kernel/auditfilter.c:238-304 | list, action and count checks and the class-expansion loop |
| AuditFilter.DataToEntry | Practica1/linux-6.6.45/kernel/auditfilter.c:449-621 | the field loop accepts exactly the rules whose header and fields the tables of `AuditRuleAccept` allow, stores each field in its place, and otherwise returns the error of the first that is not allowed |
| AuditFilter.KruleToData | Practica1/linux-6.6.45/kernel/auditfilter.c:635-702 | the printing loop fills fields, values and string buffer as specified |
| AuditFilter.CompareRule | Practica1/linux-6.6.45/kernel/auditfilter.c:706-783 | reports a difference exactly if header, mask or some field differ |
| AuditFilter.CompareExact | Practica1/linux-6.6.45/kernel/auditfilter.c:706-783 | between accepted NUL-free rules it finds no difference exactly if they are the same rule |
| CrashRanges.ExcludeOrdered | Practica1/linux-6.6.45/kernel/crash_core.c:423-503 | the ranges stay sorted, disjoint and non-empty |
| CrashRanges.ExcludeSafe | Practica1/linux-6.6.45/kernel/crash_core.c:423-503 | no address is added and none outside the interval is removed |
| CrashRanges.ExcludeExact | Practica1/linux-6.6.45/kernel/crash_core.c:423-503 | the whole interval is excluded exactly if the first range partly covered is the last one overlapping |
| CrashRanges.ExcludeInexact | Practica1/linux-6.6.45/kernel/crash_core.c:470-481 | two ranges and an interval of which a part stays in |
| CrashRanges.NeedsSlot | Practica1/linux-6.6.45/kernel/crash_core.c:470-502 | the result has more ranges than the array has slots exactly if it is full and one of its ranges has to be split |
| CrashRanges.OverrunExample | Practica1/linux-6.6.45/kernel/crash_core.c:483-502 | two ranges in an array of two whose first is split, which needs a third slot |
| CrashRanges.CrashMem.ShiftLeft | Practica1/linux-6.6.45/kernel/crash_core.c:450-458 | removes one range in place |
| CrashRanges.CrashMem.Insert | Practica1/linux-6.6.45/kernel/crash_core.c:491-502 | inserts one range in place |
| CrashRanges.CrashMem.CutAt | Practica1/linux-6.6.45/kernel/crash_core.c:470-502 | trims or splits one range in place; -ENOMEM exactly for a split in the last slot; the slot behind the array is touched only if the ranges no longer fit |
| CrashRanges.CrashMem.ExcludeMemRange | Practica1/linux-6.6.45/kernel/crash_core.c:423-503 | the specified ranges follow each other in memory afterwards; -ENOMEM exactly if the array is full and its last range has to be split, which is then cut short; the slot behind the array is written, with the last range, exactly if the array is full and a range before the last has to be split |
| Acct.EncodeComp | Practica1/linux-6.6.45/kernel/acct.c:334-361 | the loop computes the rounded code, cut off at the largest |
| Acct.CompMonotone | Practica1/linux-6.6.45/kernel/acct.c:334-361 | larger values never get smaller codes |
| Acct.CompAccurate | Practica1/linux-6.6.45/kernel/acct.c:334-361 | a code that is not cut off decodes to within half a unit of the dropped position, small values exactly |
| Acct.CompRoundTrip | Practica1/linux-6.6.45/kernel/acct.c:334-361 | every normalised code is the code of what it decodes to |
| Acct.CompSaturates | Practica1/linux-6.6.45/kernel/acct.c:353-354 | codes are cut off only above the largest decodable value |
| Acct.EncodeComp2 | Practica1/linux-6.6.45/kernel/acct.c:378-404 | the same loop in base 2 with the implied bit |
| Acct.Comp2Monotone | Practica1/linux-6.6.45/kernel/acct.c:378-404 | larger values never get smaller codes |
| Acct.Comp2Accurate | Practica1/linux-6.6.45/kernel/acct.c:378-404 | within half a unit, and exact up to 20 bits |
| Acct.Comp2RoundTrip | Practica1/linux-6.6.45/kernel/acct.c:378-404 | every code is the code of what it decodes to |
| Acct.Comp2Saturates | Practica1/linux-6.6.45/kernel/acct.c:398-400 | codes are cut off only above the largest decodable value |
| Acct.EncodeFloat | Practica1/linux-6.6.45/kernel/acct.c:409-422 | the shifting loop and the packing |
| Acct.FloatAccurate | Practica1/linux-6.6.45/kernel/acct.c:409-422 | the code is the IEEE 754 single whose value is the argument cut down to 24 significant bits |
| Acct.TruncateMonotone | Practica1/linux-6.6.45/kernel/acct.c:409-422 | cutting down keeps the order |
| XorWorkers.Split | Practica2/README.md:212-233 | for every length and thread count the segments follow each other from 0 to the length, all but the last of the same size |
| XorWorkers.TilesUnique | Practica2/README.md:217-225 | no byte belongs to two workers |
| XorWorkers.Worker | Practica2/README.md:88-107 | one worker encrypts a prefix of its segment in place, all of it unless stopped, and nothing else |
| XorWorkers.AnySchedule | Practica2/README.md:88-107 | under every schedule and every stop each worker has encrypted a prefix of its own segment once |
| XorWorkers.CompleteRun | Practica2/README.md:217-244 | if all workers complete, the buffer is the whole data encrypted, however many workers there were |
| XorWorkers.XorTwice | Practica2/README.md:306-325 | encrypting twice with a key restores the data |
| XorWorkers.Restores | Practica2/README.md:434-451 | decrypting with any thread count restores what was encrypted with any thread count |
| XorWorkers.RestoresExactly | Practica2/README.md:88-107 | whatever was stopped in either run, the data is restored exactly if every byte with a key byte other than 0 was passed in both runs or in neither |

## Left out

- Practica2/apps, Proyecto/backend, get_current_time.c, get_system_uptime.c: prompts and one-call wrappers.
- Memory ordering, lockdep, tracing, printk, interrupt masking and RCU grace periods: steps are sequentially consistent.
- Decompressors, real time stamps of directories and the freeing of hash tables in initramfs.c.
- Unpacker.Parser.WriteBuffer: chunks of 2^32 bytes or more are excluded, because its loop need not end on them (UnpackLimits.EndsExactly); offsets are unbounded.
- UnpackLimits.CopyFits: what strcpy writes behind the copy when the name does not fit is not modelled.
- UnpackAside.CutsAgree: the header with what follows is taken to fit one chunk.
- Unpacker.Parser.Resume: the branch for a zero byte is not written out, because do_reset has eaten the zeros before it is reached.
- Hotplug.Cpu.InvokeRange: only the variant that stops at an error; the nofail variant and cpuhp_invoke_ap_callback are not modelled.
- Hotplug.Cpu.UpCallbacks: the bodies of the CPUHP_BRINGUP_CPU and CPUHP_TEARDOWN_CPU callbacks, which change the walk's own state, are not modelled.
- cpu.c sysfs files, SMT control, suspend paths and CPU masks.
- ContextTracking.Cpu.NmiEnter: the nesting counters are unbounded, overflow of a C long is not modelled; user-mode entry and exit through ct_user_enter are not modelled.
- Async.WaitGuarantee: functions run synchronously for want of memory are on no list and outside the guarantee; a schedule is free to take either way, since the counter is read outside the lock; cookies stay below 2^64 - 1.
- IrqWork.NextKeeps: raising the interrupt or the tick after queueing is not modelled; irq_work_queue_on through the smp call queue is not modelled; each list has one runner at a time; the store that clears PENDING and the start of the callback are one step.
- HotplugSyncLive.BootsExactly: says that a way up exists, not that it is taken; whether an architecture restarts a waiting AP is free.
- HotplugSync.LeavesAfterRelease: clocks are replaced by waits that may time out at any time.
- TreeRefs.Context.HandlePath: the retries are a finite list; a climb that keeps racing shows as still retrying.
- Kauditd.PassConserves: a pass is sequential, with no records or connections arriving in between; audit_lost is unbounded; audit_panic and printing are left out.
- AuditRule.ToOp: rule allocation never fails in the model; syscall masks are sets of bit numbers rather than arrays of words.
- AuditRuleLaws.RoundTrip: stated for NUL-free strings; a string with a NUL is printed only up to it.
- Watches and trees beyond the checks made when a rule is parsed (audit_watch.c, audit_tree.c): their lifetimes depend on fsnotify.
- CrashRanges.CrashMem.ExcludeMemRange: addresses are unbounded; the memory behind the array is one slot.
- Most of auditsc.c, exit.c, copy_process and crash_prepare_elf64_headers: long straight-line setup.
