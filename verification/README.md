# UprobeStats: a verified model

UprobeStats attaches BPF programs to Android processes, polls what they emit and reports it to statsd and
to an event consumer. This project models the parts of it that hold state, concurrency or non-trivial
encodings, and proves what they are for.

| file | part of the system |
|---|---|
| `BridgeQueue.dfy`, `EventCodec.dfy` | the bridge service's event buffer with its flushes and connections, and the binder form of events |
| `TaskAdmission.dfy` | the daemon's admission of concurrent tasks to the BPF maps they poll |
| `ConfigResolver.dfy`, `BinderKeys.dfy`, `Utf8.dfy`, `FilterMap.dfy`, `BinderProgram.dfy` | binder filters from the config proto, through 128-byte keys and ten codes in a kernel map, to the matching BPF program and the handler's lookup |
| `Accessibility.dfy` | association of permission grants with the accessibility calls before them |
| `BitmapHandler.dfy`, `BitmapKernel.dfy` | bitmap tracking in the handler and in the kernel's `active_bitmaps` table |
| `ElfSymbols.dfy`, `BpfLoader.dfy` | names, definitions, descriptors and relocations of a BPF object |
| `Common.dfy`, `Sorting.dfy` | shared containers and sorting facts |

Code that updates state in place is a class or a method over arrays, proved against a specification
function. Protocols are step systems whose runs are arbitrary sequences of enabled steps; a main theorem
about a protocol holds for every run. Automatic induction is switched off on every lemma, so that each
proof is what its body says. Kernel, binder and statsd calls are answers given as inputs or chosen
freely within a stated contract.

## Where the code does less than it seems to promise

Each of these is a theorem, together with the exact condition under which the promise holds where there is one.

- A comment in `daemon/android/task.rs` says that the panic in cleanup should never happen. It can happen
  when a task without map paths overlaps another task, and in no other case (`TaskAdmission.GuardExactIff`).
- An interface name that ends in NUL bytes is accepted, written to the kernel map and matched, and is then
  not found by the handler, which ends the poll. The same happens for an entry that an earlier task left in the
  map. A task without either agrees with its handler (`BinderProgram.FilterAgreementIff`).
- A name that has a NUL with some other byte after it before byte 128, or no NUL and at least 128 bytes, leaves a
  key in the kernel map that the daemon can never delete (`BinderKeys.RestorableIff`, `BinderKeys.LongNameIsStuck`).
  No transaction ever matches that key (`BinderProgram.RecordableIff`), but no later task with it can be set up
  (`FilterMap.StuckBlocks`), and a drain that meets it stops and may leave any other entry behind: then a later task
  fails on those, even if all names in both tasks are free of NULs (`BinderProgram.BlockedDrainBreaksAgreement`).
  Across tasks, agreement takes that no earlier drain was blocked so (`BinderProgram.AgreementAcrossTasks`).
- An interface with more than ten methods is accepted, and the methods after the tenth in hash order are
  never reported (`BinderProgram.FilterCompleteIff`).
- One missing consumer, refused bind or null binding can strand the buffer; later events do not rescue it
  unless one asks for a flush or fills the buffer (`BridgeQueue.FaultsStrand`, `BridgeQueue.RescueFromStranded`).
  A buffer of n events is stranded only after as many bind faults as it needs wakeups
  (`BridgeQueue.StrandingTakesFaults`). A delivery that throws loses its batch, but it never strands the buffer
  (`BridgeQueue.NoLostWakeup`).
- The free program leaves the size field of its record unset, and one free with another size than its
  allocation had leaves a total that is not that of the live sizes (`BitmapHandler.MisreportedFreeDrifts`). The
  two agree throughout if and only if each event balances (`BitmapHandler.ConservedIff`).
- A grant and a call with one timestamp are reported by order of arrival (`Accessibility.TieMatters`); the order
  of processing is the same for every order of arrival if and only if there are no ties
  (`Accessibility.ProcessingOrderFixedIff`). Which ties change the records is exact too (`Accessibility.TieSwapIff`,
  `Accessibility.GrantSwapIff`).
- Timestamps lose what is below a millisecond, and nothing else is lost (`EventCodec.SendAndConvert`).

## Model

| member | source | states |
|---|---|---|
| `BridgeQueue.EventBuffer.constructor` | service/java/com/android/uprobestats/UprobeStatsBridgeServiceImpl.java:69-72 | The buffer starts empty. |
| `BridgeQueue.EventBuffer.Add` | service/java/com/android/uprobestats/UprobeStatsBridgeServiceImpl.java:254-258 | The event goes behind all others and the size reported is the one just after it. |
| `BridgeQueue.EventBuffer.GetNextBatch` | service/java/com/android/uprobestats/UprobeStatsBridgeServiceImpl.java:146-160 | Batch and remaining buffer together are the old buffer, and the batch is the longest allowed prefix. |
| `BridgeQueue.NextBatch` | service/java/com/android/uprobestats/UprobeStatsBridgeServiceImpl.java:148-158 | A prefix of at most 128 events that is either everything or full. |
| `BridgeQueue.NoLostWakeup` | service/java/com/android/uprobestats/UprobeStatsBridgeServiceImpl.java:146-266 | In every interleaving of enqueuers, flush runnables and connections in which the consumer stays configured and binds succeed, even if deliveries throw, a non-empty buffer has a flush pending or running, a connection still to see an empty batch, or an enqueuer about to post; and from 128 events on it has one more of these for each event. |
| `BridgeQueue.FlushesArePrompt` | service/java/com/android/uprobestats/UprobeStatsBridgeServiceImpl.java:259-265 | In every such interleaving, while an event enqueued with a flush is in the buffer, or the buffer holds 128 or more, something other than the delayed flush is on its way: a posted or running flush, a connection about to poll, or an enqueuer about to post at once. |
| `BridgeQueue.StepKeepsPrompt` | service/java/com/android/uprobestats/UprobeStatsBridgeServiceImpl.java:171-266 | The inductive step of that, a bind fault costing one such wakeup at most. |
| `BridgeQueue.PostsAreCalledFor` | service/java/com/android/uprobestats/UprobeStatsBridgeServiceImpl.java:259-265 | In every run, flushes posted at once and about to be are as many as adds that asked for a flush or filled the buffer, and delayed ones as many as other adds to an empty buffer. |
| `BridgeQueue.StepKeepsPosts` | service/java/com/android/uprobestats/UprobeStatsBridgeServiceImpl.java:248-266 | Every step keeps those counts. |
| `BridgeQueue.BindsOnlyForWaiting` | service/java/com/android/uprobestats/UprobeStatsBridgeServiceImpl.java:171-209 | A step binds only after the consumer was seen set and then events were seen waiting; a declined event is not added. |
| `BridgeQueue.StepKeepsCovered` | service/java/com/android/uprobestats/UprobeStatsBridgeServiceImpl.java:171-266 | The inductive step: every step, a throwing delivery included, leaves as many wakeups as the buffer needs, not counting connections that hold a batch, but for one at most per bind fault. |
| `BridgeQueue.WakeupArms` | service/java/com/android/uprobestats/UprobeStatsBridgeServiceImpl.java:259-265 | A wakeup is something that will look at the buffer; which kind it is, FlushesArePrompt and PostsAreCalledFor say. |
| `BridgeQueue.FifoConservation` | service/java/com/android/uprobestats/UprobeStatsBridgeServiceImpl.java:146-160 | In every interleaving, faults included, the events added are the extracted batches in order followed by the buffer; each extracted batch is delivered once, lost in a fault or still in a connection's hands; delivered batches have 1 to 128 events. |
| `BridgeQueue.StepKeepsOrder` | service/java/com/android/uprobestats/UprobeStatsBridgeServiceImpl.java:146-160 | Every step keeps the equation between added events, extracted batches and buffer. |
| `BridgeQueue.StepAccounts` | service/java/com/android/uprobestats/UprobeStatsBridgeServiceImpl.java:214-230 | Every step keeps the count of each batch: extracted is delivered plus lost plus in flight. |
| `BridgeQueue.RunKeepsInv` | service/java/com/android/uprobestats/UprobeStatsBridgeServiceImpl.java:146-266 | Order, accounting and enough wakeups, counting bind faults, hold after every run. |
| `BridgeQueue.StepProgress` | service/java/com/android/uprobestats/UprobeStatsBridgeServiceImpl.java:171-266 | Every step but an arrival lowers a measure on the remaining work, whether it fails or succeeds. |
| `BridgeQueue.RunsAreBounded` | service/java/com/android/uprobestats/UprobeStatsBridgeServiceImpl.java:171-266 | Without new arrivals every schedule ends within that measure. |
| `BridgeQueue.BusyCanStep` | service/java/com/android/uprobestats/UprobeStatsBridgeServiceImpl.java:171-266 | A system with unfinished work always has a fault-free step to take. |
| `BridgeQueue.EveryEventIsDelivered` | service/java/com/android/uprobestats/UprobeStatsBridgeServiceImpl.java:214-266 | A run without bind faults and with nothing left to do has an empty buffer and has delivered every added event exactly once, but for the batches whose delivery threw; without faults there are none. |
| `BridgeQueue.StrandingTakesFaults` | service/java/com/android/uprobestats/UprobeStatsBridgeServiceImpl.java:171-266 | In every run, a stranded buffer has taken at least as many bind faults as it needs wakeups: one, and from 128 events on one more for each event. |
| `BridgeQueue.FaultsStrand` | service/java/com/android/uprobestats/UprobeStatsBridgeServiceImpl.java:172-205 | A missing consumer, a refused bind and a null binding can each, alone, leave events that nothing will fetch. |
| `BridgeQueue.RescueFromStranded` | service/java/com/android/uprobestats/UprobeStatsBridgeServiceImpl.java:255-265 | A stranded buffer gets a wakeup by a step if and only if the step adds an event that asks for a flush or fills the buffer. |
| `EventCodec.FlattenPayload` | framework/java/android/service/uprobestats/DynamicInstrumentationEventSender.java:104-121 | Succeeds exactly when every value is null, a string or an integer, and then lists each key once with its value, in whatever key order. |
| `EventCodec.SendEvent` | framework/java/android/service/uprobestats/DynamicInstrumentationEventSender.java:98-127 | Fails exactly on a timestamp out of range or an unsupported value; otherwise the event carries uid, id, whole milliseconds and the encoded payload. |
| `EventCodec.ConvertPayload` | framework/java/android/service/uprobestats/DynamicInstrumentationEventService.java:72-85 | Fails exactly on an unknown tag; otherwise each key has the value of its earliest entry and no other key appears. |
| `EventCodec.ConvertEvent` | framework/java/android/service/uprobestats/DynamicInstrumentationEventService.java:71-91 | The same for whole events, a null payload giving an empty bundle. |
| `EventCodec.PayloadRoundTrip` | framework/java/android/service/uprobestats/DynamicInstrumentationEventService.java:72-85 | Decoding any encoding of a bundle gives that bundle back. |
| `EventCodec.EncodingHasKnownTags` | framework/java/android/service/uprobestats/DynamicInstrumentationEventSender.java:107-120 | An encoded payload has only tags that conversion knows. |
| `EventCodec.EventRoundTrip` | framework/java/android/service/uprobestats/DynamicInstrumentationEventSender.java:98-127 | Every sent event can be converted; the result equals the sent event if and only if its timestamp is a whole number of milliseconds, and everything but the timestamp always survives. |
| `EventCodec.SendAndConvert` | framework/java/android/service/uprobestats/DynamicInstrumentationEventService.java:71-91 | Sending and converting succeeds exactly on convertible events, and gives the event with its timestamp rounded down to a millisecond. |
| `TaskAdmission.StateCell.constructor` | daemon/android/task.rs:27-30 | The daemon starts without active state. |
| `TaskAdmission.StateCell.UpdatePolledBpfMaps` | daemon/android/task.rs:66-87 | Admits exactly when no wanted map is polled, adding all of them; a rejection changes nothing. |
| `TaskAdmission.StateCell.CleanupPolledBpfMaps` | daemon/android/task.rs:285-302 | Panics exactly without active state; otherwise removes the task's maps and drops the state when none is left. |
| `TaskAdmission.StepKeepsInv` | daemon/android/uprobestats_service.rs:42-73 | Every step of every thread keeps exclusion, the union and the guard's implication. |
| `TaskAdmission.TaskExclusion` | daemon/android/uprobestats_service.rs:42-73 | Under every schedule of any number of threads, even past a panic, running tasks have disjoint maps and the polled set is exactly their union. |
| `TaskAdmission.RejectedIffConflict` | daemon/android/task.rs:80-86 | In every reachable state a waiting task is rejected if and only if it shares a map with a running task, and then nothing else changes. |
| `TaskAdmission.GuardHeldWhileWorkRuns` | daemon/android/task.rs:30-46 | Unless a task without maps can overlap another, the state is present exactly while a task runs, and nothing ever panics. |
| `TaskAdmission.EmptyTaskPanics` | daemon/android/task.rs:285-302 | A schedule, for any two tasks of which one has no maps, in which the guard is dropped while work runs and cleanup then panics. |
| `TaskAdmission.GuardExactIff` | daemon/android/task.rs:285-302 | The guard is exact and the panic unreachable under every schedule if and only if no task without maps comes with another task. |
| `ConfigResolver.ResolveAtom` | daemon/core/config_resolver.rs:129-147 | Succeeds exactly on a positive atom id, which it keeps, with all positions in order, each the one of its number and unknown ones defaulted. |
| `ConfigResolver.MethodOf` | daemon/core/config_resolver.rs:338-369 | Every resolved method has at least one sink. |
| `ConfigResolver.MethodOfResolves` | daemon/core/config_resolver.rs:100-147 | A resolved method flushes exactly if its config says so, and has the atom id and, each under its own number, the field positions listed. |
| `ConfigResolver.ResolveMethod` | daemon/core/config_resolver.rs:338-369 | Succeeds exactly on a positive id with a sink and a valid atom, if any, and keeps flush mode, atom id and positions field by field. |
| `ConfigResolver.ResolveInterface` | daemon/core/config_resolver.rs:63-82 | Succeeds exactly on a non-empty name with valid methods of distinct ids, and then holds each method under its id and nothing else. |
| `ConfigResolver.ResolveBinderTransactionFilters` | daemon/core/config_resolver.rs:312-386 | For the binder program, succeeds exactly on a non-empty list of valid filters with distinct names; for others exactly on none; no listed method is dropped or merged, and none is made up. |
| `ConfigResolver.ExtendMethods` | daemon/core/config_resolver.rs:366-369 | Inserting a method under a new id keeps every earlier one. |
| `ConfigResolver.ExtendFilters` | daemon/core/config_resolver.rs:372-374 | Inserting an interface under a new name keeps every earlier one. |
| `BinderKeys.FirstNul` | daemon/core/string.rs:7-10 | The prefix before the first NUL has none, and a NUL follows if the bytes go on. |
| `BinderKeys.ToCKey` | daemon/android/bpf_map/binder_transaction.rs:60-66 | Each of the 128 bytes is the name's byte or, past its end, zero. |
| `BinderKeys.ToCValue` | daemon/android/bpf_map/binder_transaction.rs:68-73 | Each of the ten codes is the listed id or, past the end, zero. |
| `BinderKeys.DecodePadded` | daemon/core/string.rs:7-10 | The key of a short NUL-free byte string decodes to it when it is UTF-8, and fails otherwise. |
| `Utf8.EncodedIsChar` | daemon/core/string.rs:9 | The encoding of a Unicode scalar value is recognised as one character, whatever follows. |
| `Utf8.CharIsEncoded` | daemon/core/string.rs:9 | What is recognised as a character is the encoding of a scalar value. |
| `Utf8.ValidUtf8Iff` | daemon/core/string.rs:9 | A byte string passes the check if and only if it is the concatenated encodings of some scalar values. |
| `Utf8.AsciiIsValid` | daemon/core/string.rs:9 | Every string of bytes below 128 passes. |
| `Utf8.ReadsText` | daemon/core/string.rs:7-10 | A name is read from bytes if and only if it stands at their start, has no NUL, is followed by one and encodes some text. |
| `BinderKeys.NameRoundTrip` | daemon/android/bpf_map/binder_transaction.rs:60-81 | Canonical names survive encoding and decoding. |
| `BinderKeys.DecodedIsCanonical` | daemon/android/bpf_map/binder_transaction.rs:79-81 | Whatever is decoded from a key is a canonical name. |
| `BinderKeys.CanonicalKeyIff` | daemon/android/bpf_map/binder_transaction.rs:60-81 | A key survives decoding and encoding if and only if it is the key of a canonical name. |
| `BinderKeys.Utf8UpToNul` | daemon/core/string.rs:7-10 | Cutting a UTF-8 string at its first NUL leaves UTF-8. |
| `BinderKeys.RestorableIff` | daemon/android/bpf_map/binder_transaction.rs:60-81 | The key of a UTF-8 name survives if and only if the name's first NUL, or its end, comes before byte 128 and only NULs follow up to there. |
| `BinderKeys.LongNameIsStuck` | daemon/android/bpf_map/binder_transaction.rs:60-81 | The key of a NUL-free name of 128 bytes or more does not survive. |
| `FilterMap.BinderInterfaceMap.constructor` | daemon/android/bpf_map/binder_transaction.rs:22-26 | The map handle onto an empty table. |
| `FilterMap.BinderInterfaceMap.Put` | daemon/android/task.rs:166 | Insert-only: fails on an existing key, and then changes nothing. |
| `FilterMap.BinderInterfaceMap.GetFirstKey` | daemon/android/bpf_map/binder_transaction.rs:30 | None only on an empty map, otherwise the decoded name of some key. |
| `FilterMap.BinderInterfaceMap.Delete` | daemon/android/bpf_map/binder_transaction.rs:31 | Removes the re-encoded key if it is there, and says so. |
| `FilterMap.BinderInterfaceMap.Drain` | daemon/android/bpf_map/binder_transaction.rs:29-38 | Terminates on every map; never removes a key that does not survive decoding, and changes no value; with working calls succeeds, leaving the map empty, if and only if all keys survive, and is a run of the kernel's choices of first keys. |
| `FilterMap.MethodIds` | daemon/core/config_resolver.rs:78-81 | Lists every id once, in some hash order. |
| `FilterMap.BinderInterfaceMap.WriteFilters` | daemon/android/task.rs:160-170 | Over any earlier contents: success adds exactly this probe's filters; with working calls it fails if and only if two interfaces share a key or one is taken; a partial write adds nothing else and keeps all there was. |
| `FilterMap.BinderInterfaceMap.SetUpFilters` | daemon/android/task.rs:134-158 | From any map. Success leaves exactly the disjoint union of what was there and all probes' filters for any hash order; a failed write leaves the map empty if all keys survive decoding and drain calls work; with working calls it succeeds if and only if keys are distinct across probes and none is taken; keys that do not survive stay. |
| `FilterMap.BinderInterfaceMap.Execute` | daemon/android/task.rs:96-126 | From any map and on every setup, attach and poll outcome: setup succeeds, with working calls, if and only if keys are distinct and none is taken, and polls over exactly what was there and the task's filters; with working drain calls and keys that survive the map ends empty, or untouched if it was never opened; after a successful setup with filters it is empty if and only if all keys survive; keys that do not survive, old or new, stay; and nothing else is added. |
| `FilterMap.BinderInterfaceMap.ExecuteAll` | daemon/android/task.rs:96-126 | Any sequence of tasks from an empty map with working calls is a history: each finds what the one before it left, and does what one execution does. |
| `FilterMap.DeletedRemains` | daemon/android/bpf_map/binder_transaction.rs:29-38 | Whatever the kernel offers first, what drain deletes are keys that survive decoding. |
| `FilterMap.StuckKeyStopsDrain` | daemon/android/bpf_map/binder_transaction.rs:29-38 | If a stuck key is offered first and its re-encoded form is not there, drain may leave everything. |
| `FilterMap.DrainedPart` | daemon/android/task.rs:147-154 | What any drain leaves of a partly written map: all stuck keys, and nothing that neither the task nor an earlier one wrote. |
| `FilterMap.DrainedWhole` | daemon/android/task.rs:268-279 | The same for a wholly written one, whose keys all survive exactly if those before it and all names' keys do. |
| `FilterMap.FoundEmpty` | daemon/android/task.rs:96-126 | In every history, a task finds an empty map if all earlier names are restorable. |
| `FilterMap.SetUpIff` | daemon/android/task.rs:134-158 | And is then set up if and only if its own keys are distinct. |
| `FilterMap.FoundIsLeft` | daemon/android/task.rs:96-126 | Every entry that a task finds is as some earlier task wrote it. |
| `FilterMap.StuckStays` | daemon/android/task.rs:96-126 | A key that does not survive decoding stays through all later tasks once it is written. |
| `FilterMap.StuckBlocks` | daemon/android/task.rs:160-170 | And no later task that configures it is set up. |
| `FilterMap.EmptyInTheEndIff` | daemon/android/task.rs:96-126 | If all tasks have distinct keys, the map is empty in the end if and only if all names are restorable. |
| `FilterMap.RestorableKeysIff` | daemon/android/bpf_map/binder_transaction.rs:60-81 | For UTF-8 names, all keys survive decoding if and only if every name is restorable. |
| `FilterMap.OneMoreHeld` | daemon/android/task.rs:164-168 | One successful insert keeps every earlier filter and adds this one. |
| `FilterMap.OneMoreWritable` | daemon/android/task.rs:164-168 | A successful insert keeps keys distinct and off the earlier contents. |
| `FilterMap.OneMoreOnly` | daemon/android/task.rs:164-168 | An insert adds no key that is not configured. |
| `FilterMap.Collision` | daemon/android/task.rs:166 | An insert that finds its key present proves that two interfaces share it or that it was taken before. |
| `BinderProgram.CopySize` | bpf/headers/include/uprobestats_bpf_fns.h:46-48 | The copy is of at least one byte and never more than the buffer. |
| `BinderProgram.RecordedName` | bpf/headers/include/uprobestats_bpf_fns.h:36-49 | The recorded string is NUL-free and leaves room for its terminator. |
| `BinderProgram.RecordedIff` | bpf/headers/include/uprobestats_bpf_fns.h:46-48 | What is recorded is exactly the string's content up to the first NUL, half its count or 127 bytes, or nothing if memory ends before. |
| `BinderProgram.RecordsOwnBytesOnly` | bpf/headers/include/uprobestats_bpf_fns.h:46-48 | Two strings of one count with the same bytes of their own are recorded alike, whatever follows them in memory, and never longer than they are. |
| `BinderProgram.ProbeReadUserStr` | bpf/headers/include/uprobestats_bpf_fns.h:47-48 | The buffer holds the string up to its first NUL or the size limit and zeros behind it; all zeros if the read faults. |
| `BinderProgram.RecordString` | bpf/headers/include/uprobestats_bpf_fns.h:36-49 | The kernel's key buffer is the daemon's encoding of the recorded string, on null and unreadable strings too. |
| `BinderProgram.ExecTransactInternal` | bpf_progs/Binder.c:41-73 | A record is emitted exactly when the recorded key is in the map, the code is listed before the terminating zero and the ring has space; its fields; and the return value. |
| `BinderProgram.LookupFinds` | daemon/core/bpf_handler/binder_transaction.rs:41-46 | The lookup returns the config of the one probe that configures the name. |
| `BinderProgram.LookupMisses` | daemon/core/bpf_handler/binder_transaction.rs:41-52 | The lookup fails for a name that no probe configures. |
| `BinderProgram.SameKey` | daemon/android/bpf_map/binder_transaction.rs:60-66 | A recorded key equals a configured one only for the same non-empty name, unless the name is NUL-padded. |
| `BinderProgram.MatchHasItsConfig` | daemon/core/bpf_handler/binder_transaction.rs:34-52 | Over any earlier contents: a match of a key that was not there before is handled with the config of the probe that wrote the matched filter. |
| `BinderProgram.LeftOverMisses` | daemon/core/bpf_handler/binder_transaction.rs:34-52 | A match of a key that was there before the task finds no config. |
| `BinderProgram.PaddedNameMisses` | daemon/core/bpf_handler/binder_transaction.rs:34-52 | For every padded name, a descriptor and code that match and for which the handler fails. |
| `BinderProgram.MatchIsAlive` | bpf_progs/Binder.c:41-73 | A left-over entry is matched only if its key survives decoding and it has a code. |
| `BinderProgram.AliveMatches` | bpf_progs/Binder.c:41-73 | And if so, some transaction matches it. |
| `BinderProgram.FilterAgreementIff` | daemon/core/bpf_handler/binder_transaction.rs:34-52 | Over any earlier contents with UTF-8 keys: every transaction that matches has a config the handler finds, if and only if no configured name is empty or NUL-padded and no left-over entry has both a key that survives decoding and a code. |
| `BinderProgram.AgreementAcrossTasks` | daemon/core/bpf_handler/binder_transaction.rs:34-52 | In every history of tasks, one that is set up agrees with its handler if and only if none of its names is NUL-padded and it found no key that survives decoding; it found nothing if all earlier names are restorable. |
| `BinderProgram.BlockedDrainBreaksAgreement` | daemon/android/task.rs:268-279 | With NUL-free names only: a task with a short name and one of 128 bytes or more may leave its map undrained, and no later task set up over it agrees. |
| `BinderProgram.FilterCompleteIff` | bpf_progs/Binder.c:53-70 | Over any earlier contents: all configured methods of an interface match if and only if there are at most ten. |
| `BinderProgram.ConfiguredIsReported` | bpf_progs/Binder.c:41-73 | Over any earlier contents: a transaction with a configured name and code, of an interface with at most ten methods, matches and is handled with its own config. |
| `BinderProgram.RecordableIff` | bpf/headers/include/uprobestats_bpf_fns.h:36-49 | Some descriptor is recorded under the key of a UTF-8 name if and only if that key survives decoding. |
| `BinderProgram.LongNameNeverRecorded` | bpf/headers/include/uprobestats_bpf_fns.h:36-49 | No recorded descriptor has the key of a NUL-free name of 128 bytes or more, and that key does not survive decoding. |
| `BinderProgram.ResolvedIsWellResolved` | daemon/core/config_resolver.rs:323-375 | Resolution leaves no empty name, no interface without methods and no zero id. |
| `BinderProgram.EmittedIsConfigured` | daemon/core/bpf_handler/binder_transaction.rs:34-52 | End to end, over any earlier contents: for NUL-free names, a matched transaction is handled if and only if its key was not there before the task, and then with the very method config that the proto lists for that name and code, which has a sink. |
| `Accessibility.LastGrant` | daemon/core/bpf_handler/accessibility.rs:169-194 | The nearest grant listed before a position, with only calls between. |
| `Accessibility.GrantsAreAll` | daemon/core/bpf_handler/accessibility.rs:177-194 | The grant positions are increasing and complete, and the last one is the grant at hand. |
| `Accessibility.AssociateEvents` | daemon/core/bpf_handler/accessibility.rs:166-216 | The loop with one grant at hand computes the one-pass records. |
| `Accessibility.AssociateGrant` | daemon/core/bpf_handler/accessibility.rs:177-194 | A grant finishes all earlier records and opens its own without calls. |
| `Accessibility.AssociateCall` | daemon/core/bpf_handler/accessibility.rs:197-208 | A call leaves finished records alone and joins the latest one exactly inside the window. |
| `Accessibility.OnePassIsAssociated` | daemon/core/bpf_handler/accessibility.rs:166-216 | On every list, one pass equals the declarative association: one record per grant, in order, with exactly the calls that join it, in order. |
| `Accessibility.JoinsIff` | daemon/core/bpf_handler/accessibility.rs:203-207 | On a descending list a call joins a grant if and only if it is listed after it with no other grant between and lies less than 10 s before it; so it joins at most one. |
| `Accessibility.HandlePermissionGrantEvent` | daemon/core/bpf_handler/accessibility.rs:107-145 | The early exits amount to this: an event comes out if and only if the grant is of a system permission to a package with an enabled accessibility service, its uid is known and the consumer takes the event, which then has that uid; nothing comes out exactly for other permissions and packages without a service; all else is an error. The event has the item's time, the permission as decoded and the uid that the service gives for the package. |
| `Accessibility.HandleA11yEvent` | daemon/core/bpf_handler/accessibility.rs:147-160 | A call comes out exactly when the service is there and takes it, with the item's uid, time and code, and is an error otherwise. |
| `Accessibility.ClassifyItem` | daemon/core/bpf_handler/accessibility.rs:34-53 | Every item is a recorded grant, a recorded call, an ignored grant or an error, by the same conditions. |
| `Accessibility.AccessibilityHandler.OnItem` | daemon/core/bpf_handler/accessibility.rs:33-57 | The event that an item is classified as, if any, goes to the end of its uid's list; an error or an ignored item changes nothing. |
| `Accessibility.AccessibilityHandler.OnFinished` | daemon/core/bpf_handler/accessibility.rs:59-104 | For any order of uids, the log grows by exactly the atoms of each uid's sorted and associated events. |
| `Accessibility.SortDescendingIs` | daemon/core/bpf_handler/accessibility.rs:61-65 | A uid's events are processed in descending order of time, those of one time in order of arrival, none lost. |
| `Accessibility.AtomReports` | daemon/core/bpf_handler/accessibility.rs:68-103 | A uid's k-th atom has the uid, permission and milliseconds of the k-th grant in that order, and the codes and milliseconds, in order, of exactly the calls listed after it before the next grant and less than 10 s before it in time. |
| `Accessibility.FeedItems` | daemon/android/bpf_handler.rs:84-105 | Until the first failing item, each uid's list is exactly its own events in arrival order. |
| `Accessibility.Poll` | daemon/android/bpf_handler.rs:67-107 | One failing item means no atoms at all; otherwise each uid's atoms are those its own items call for. |
| `Accessibility.EventsForPermuted` | daemon/core/bpf_handler/accessibility.rs:33-57 | Permuting items permutes each uid's events. |
| `Accessibility.ArrivalOrderIndependent` | daemon/core/bpf_handler/accessibility.rs:33-104 | Without ties, every permutation of the items succeeds or fails alike and gives each uid the same atoms in the same order. |
| `Accessibility.SameAtomsInAnyOrder` | daemon/core/bpf_handler/accessibility.rs:59-104 | Without ties, two polls of permuted items write the same multiset of atoms. |
| `Accessibility.OtherUidsDoNotMatter` | daemon/core/bpf_handler/accessibility.rs:54-67 | Removing an item recorded for another uid leaves a uid's events as they are. |
| `Accessibility.ProcessingOrderFixedIff` | daemon/core/bpf_handler/accessibility.rs:61-66 | A uid's events are processed in the same order for every order of arrival if and only if no two different ones have one timestamp. |
| `Accessibility.TieMatters` | daemon/core/bpf_handler/accessibility.rs:65-66 | A grant and a call at one instant give different atoms by order of arrival. |
| `Accessibility.ContinueSplits` | daemon/core/bpf_handler/accessibility.rs:166-216 | What follows a record adds the calls in its window up to the next grant to it, and the same further records whatever it is. |
| `Accessibility.TieSwapIff` | daemon/core/bpf_handler/accessibility.rs:166-216 | In any list, two tied neighbours of one uid can change places without a change to the list of records if and only if both are calls outside the window of the grant before them. |
| `Accessibility.GrantSwapIff` | daemon/core/bpf_handler/accessibility.rs:166-216 | Two tied grants that change places keep the multiset of records if and only if no later call joins. |
| `BitmapHandler.BitmapAllocationHandlerV1.constructor` | daemon/core/bpf_handler/bitmap_allocation.rs:60-66 | Starts with no bitmaps and zero totals. |
| `BitmapHandler.BitmapAllocationHandlerV1.OnItem` | daemon/core/bpf_handler/bitmap_allocation.rs:73-123 | Each event kind's new state and written atom, the atoms field by field; an error, whose conditions are exact, leaves the handler as it was. |
| `BitmapHandler.CollectValues` | daemon/core/bpf_handler/bitmap_allocation.rs:97 | The values of all keys, each once, in some hash order. |
| `BitmapHandler.BitmapAllocationHandlerV1.WriteSnapshot` | daemon/core/bpf_handler/bitmap_allocation.rs:129-141 | One atom for each bitmap of the snapshot, all under one id and type. |
| `BitmapHandler.BitmapAllocationHandlerV1.OnFinished` | daemon/core/bpf_handler/bitmap_allocation.rs:125-159 | Writes the peak snapshot and then every live bitmap once, with their own ids and types. |
| `BitmapHandler.SnapshotAtPeak` | daemon/core/bpf_handler/bitmap_allocation.rs:89-98 | Over every run the maximum is the largest prefix total, the empty prefix included, and the snapshot is the live collection at the earliest prefix that reaches it. |
| `BitmapHandler.LiveMetadata` | daemon/core/bpf_handler/bitmap_allocation.rs:76-110 | A pointer is live if and only if its last event is an allocation; its uid, width, height, pixel storage type and activity name are those of that allocation and of the activity running then. |
| `BitmapHandler.TotalFits` | daemon/core/bpf_handler/bitmap_allocation.rs:90-102 | Fewer than 2^31 events cannot overflow an i64. |
| `BitmapHandler.TotalIsLiveSizesPlusDrift` | daemon/core/bpf_handler/bitmap_allocation.rs:89-103 | On every trace the total is the sum of live sizes plus the sizes replaced while live and misreported when freed. |
| `BitmapHandler.ConservedIff` | daemon/core/bpf_handler/bitmap_allocation.rs:89-103 | The total is the sum of live sizes at every prefix if and only if each allocation replaces no size and each free carries exactly the size that is live under its pointer. |
| `BitmapHandler.MisreportedFreeDrifts` | bpf_progs/BitmapAllocation.c:123-128 | An allocation and its free with another size leave no bitmap and a total other than zero. |
| `BitmapHandler.SizeConservation` | daemon/core/bpf_handler/bitmap_allocation.rs:89-103 | When allocations are of dead pointers and frees of live ones with their sizes, the total is the sum of live sizes. |
| `BitmapKernel.LiveIff` | bpf_progs/BitmapAllocation.c:96-128 | A pointer is live in the ring if and only if some allocation of it has no later deallocation. |
| `BitmapKernel.BeginKeepsInv` | bpf_progs/BitmapAllocation.c:78-121 | The first half of either program keeps a pointer live if it is active or being worked on, and its deallocations paired. |
| `BitmapKernel.AllocEndKeepsInv` | bpf_progs/BitmapAllocation.c:99-105 | So does the end of a creation, also while others overlap it. |
| `BitmapKernel.FreeEndKeepsInv` | bpf_progs/BitmapAllocation.c:123-128 | So does the end of a free. |
| `BitmapKernel.BeginForgetsNone` | bpf_progs/BitmapAllocation.c:78-121 | A first half makes no pointer live that nothing knows of. |
| `BitmapKernel.EndForgetsNone` | bpf_progs/BitmapAllocation.c:99-128 | Nor does a second half, unless it loses its update or record. |
| `BitmapKernel.RunKeepsInv` | bpf_progs/BitmapAllocation.c:74-130 | Both over every run, for each pointer whose frees overlap nothing on it. |
| `BitmapKernel.HandlerIsLive` | daemon/core/bpf_handler/bitmap_allocation.rs:76-103 | The handler's keys are the pointers live in the events it has consumed. |
| `BitmapKernel.KernelUserSimulation` | bpf_progs/BitmapAllocation.c:74-130 | For each pointer of which no free overlaps another program on it, in every run with any failures and any doings of other pointers: if active it is live in the handler, and each deallocation record of it follows an allocation of it with none between; if no update or record of it is lost, it is active exactly if live whenever no program is at work on it. |
| `BitmapKernel.TablesAgree` | bpf_progs/BitmapAllocation.c:74-130 | If that holds of all pointers, the table is within the live set, and equal to it when nothing is lost and no program runs. |
| `BitmapKernel.OverlapForgets` | bpf_progs/BitmapAllocation.c:109-130 | Programs overlapping on one pointer can leave it active and not live. |
| `ElfSymbols.ReadSortedSymTab` | bpfloader/UprobeStatsBpfLoad.cpp:297-317 | A permutation of the symbol table in ascending address order. |
| `ElfSymbols.FindSection` | bpfloader/UprobeStatsBpfLoad.cpp:381-397 | The first section of that name; with readable names it fails only when there is none. |
| `ElfSymbols.CollectNames` | bpfloader/UprobeStatsBpfLoad.cpp:399-412 | The names of exactly the symbols of the section and type, in order; fails exactly when one has no name. |
| `ElfSymbols.GetSymNameIff` | bpfloader/UprobeStatsBpfLoad.cpp:189-202 | A name is read if and only if its offset is in the string table, and it is then the characters there up to the first NUL or the end of the table. |
| `ElfSymbols.GetSectionSymNames` | bpfloader/UprobeStatsBpfLoad.cpp:364-413 | The strings that stand in the string table at the name offsets of the section's symbols, in address order. |
| `ElfSymbols.SectionMembers` | bpfloader/UprobeStatsBpfLoad.cpp:399-410 | Filtering the sorted table keeps exactly the section's symbols, with multiplicity, in order. |
| `ElfSymbols.Slot` | bpfloader/UprobeStatsBpfLoad.cpp:601-611 | The definition whose bytes hold the symbol's address. |
| `ElfSymbols.IndexAlignment` | bpfloader/UprobeStatsBpfLoad.cpp:364-413 | With symbols at consecutive multiples of the definition size, in any table order, name i belongs to definition i and there are as many names as definitions. |
| `ElfSymbols.SymbolAtSlot` | bpfloader/UprobeStatsBpfLoad.cpp:364-413 | Every symbol of the section is found at the index of its definition. |
| `BpfLoader.CreateMaps` | bpfloader/UprobeStatsBpfLoad.cpp:601-724 | Succeeds exactly when each definition is skipped or its map has its attributes and is settled; then there is one slot for each name, skipped maps included, each with the descriptor of its own definition. |
| `BpfLoader.ExpectedKeeps` | bpfloader/UprobeStatsBpfLoad.cpp:628-647 | A created map has its definition's sizes and at least its entries; exactly when its type or entries differ, and to what. |
| `BpfLoader.ExpectedHasFlags` | bpfloader/UprobeStatsBpfLoad.cpp:544-548 | It has all flags of its definition. |
| `BpfLoader.ExpectedAddsReadOnly` | bpfloader/UprobeStatsBpfLoad.cpp:544-548 | Device maps have the read-only flag besides; other maps have the same flags. |
| `BpfLoader.ExpectedAddsNoOther` | bpfloader/UprobeStatsBpfLoad.cpp:544-548 | No other flag is added. |
| `BpfLoader.ApplyRelo` | bpfloader/UprobeStatsBpfLoad.cpp:726-749 | Changes one instruction's immediate and source register, only if it is a 64-bit immediate load, and nothing else. |
| `BpfLoader.IndexOf` | bpfloader/UprobeStatsBpfLoad.cpp:772-777 | The first slot with that name, or no slot has it. |
| `BpfLoader.GetSymNameByIdxIff` | bpfloader/UprobeStatsBpfLoad.cpp:517-529 | A name is read by index if and only if the unsorted table has that symbol, and it is the string at its own name offset. |
| `BpfLoader.ResolvedRels` | bpfloader/UprobeStatsBpfLoad.cpp:763-769 | How many relocations come before the first whose symbol has no name. |
| `BpfLoader.RelocateSection` | bpfloader/UprobeStatsBpfLoad.cpp:760-778 | Each instruction is as the last relocation for it that names a map leaves it; stops exactly at a symbol without a name. |
| `BpfLoader.ApplyMapRelo` | bpfloader/UprobeStatsBpfLoad.cpp:751-780 | The same section by section, with everything after the stop untouched. |
| `BpfLoader.NameFindsSlot` | bpfloader/UprobeStatsBpfLoad.cpp:364-413 | Search by name in the sorted table and slot by address in the unsorted one agree. |
| `BpfLoader.OwnSymbolAsks` | bpfloader/UprobeStatsBpfLoad.cpp:517-529 | A relocation against a map's own symbol asks for that map. |
| `BpfLoader.TargetOfMap` | bpfloader/UprobeStatsBpfLoad.cpp:764-777 | A relocation whose symbol has a map's name selects the descriptor of that map's own definition. |
| `BpfLoader.TargetOfNoMap` | bpfloader/UprobeStatsBpfLoad.cpp:764-777 | A relocation whose symbol has no map's name selects none. |
| `BpfLoader.LoadLinked` | bpfloader/UprobeStatsBpfLoad.cpp:763-778 | A load ends with the descriptor of the map that the last relocation asking for one asks for, whatever comes before or after. |
| `BpfLoader.LinkingCorrect` | bpfloader/UprobeStatsBpfLoad.cpp:581-780 | For any symbol order and every instruction: a 64-bit immediate load with relocations that name maps carries the descriptor made from the definition of the map that the last of them names, and the map source register, and is otherwise the same; every other instruction is unchanged. |
| `BpfLoader.CodeLinkedCorrectly` | bpfloader/UprobeStatsBpfLoad.cpp:751-780 | The same for all of a section's code, as far as its relocations have named symbols. |
| `BpfLoader.LinkProgram` | bpfloader/UprobeStatsBpfLoad.cpp:946-955 | Names read, maps created, names read again and relocations applied: up to and including the first section with a relocation whose symbol has no name, every section is linked correctly as far as its relocations have names; every later one is untouched, and all are if linking is not reached; it is reached when maps are created and names are readable. |
| `BpfLoader.PairProgDef` | bpfloader/UprobeStatsBpfLoad.cpp:488-493 | The definition at the first index whose name is the function's with `_def`, or none. |
| `BpfLoader.PairedByName` | bpfloader/UprobeStatsBpfLoad.cpp:442-493 | That index is the slot of the definition named after the function. |
| `BpfLoader.FirstFunctionIsLowest` | bpfloader/UprobeStatsBpfLoad.cpp:484-489 | The function a code section is paired by is the one at its lowest address. |
| `BpfLoader.PairedAfter` | bpfloader/UprobeStatsBpfLoad.cpp:488-493 | The definition found is at a symbol named after the function, and none is found only if there is no such symbol. |
| `BpfLoader.PairCodeSection` | bpfloader/UprobeStatsBpfLoad.cpp:442-493 | From the names read to the definition: a code section is paired with the definition laid out at the symbol named after its lowest function, with none exactly if there is no such symbol, and not at all only without functions or with unreadable names. |

## Left out

- System calls, FFI, binder and statsd: their answers are inputs, or free choices within a stated contract.
- The ring buffer: a reserve that may fail, and records consumed in the order of reservation.
- Protobuf parsing, files, flags, system properties, the guardrail, process and offset resolution.
- The other handlers (disruptive app, generic instrumentation, process management, ART test, bitmap V0): copying of fields, which would only add easy members.
- Bridge service: permission checks, package and accessibility queries, test mode and `waitQueueFlushed`; delays are not timed, so a delayed flush may run at any moment after its post.
- EventCodec.EventRoundTrip: the value of a default-constructed AIDL union is taken to be a null string, which generated code outside the repository decides.
- A panic inside `execute`: the thread would keep its maps for ever. `execute` is taken to return.
- BinderProgram.EmittedIsConfigured: what the handler does with the config (its i32 conversion of the code, atom fields, event enqueueing) is not modelled.
- Method ids and codes are unbounded naturals: the 32-bit build, where a `c_ulong` is narrower than an i64 proto field, rejects some ids that this model accepts.
- FilterMap.BinderInterfaceMap.Execute: attaching and polling are one free outcome, and nothing else touches the map meanwhile.
- FilterMap.BinderInterfaceMap.ExecuteAll: tasks one after another; that two tasks with filters do not overlap is what admission to the program's output map is for.
- Accessibility.AccessibilityHandler.OnFinished: every write succeeds; a failing writer would cut the atoms short.
- BitmapHandler.BitmapAllocationHandlerV1.OnFinished: every write succeeds; snapshot ids are inputs.
- BitmapKernel.KernelUserSimulation: one target process, so the tgid half of the key is constant; the table starts empty, although entries of an earlier task may in fact remain in it; lookup and deletion in a free are one step, which no overlap on the pointer can tell apart; frees that overlap another program on their pointer are excluded, since the claim is false of them (OverlapForgets); `bitmap_creation`, which leaves its record's type unset, is not attached to the same ring.
- ELF reading from a stream, pin paths, program loading, and objects without a maps section (for which nothing is created).
- BpfLoader.CreateMaps: more names than definitions would read past the definitions; the contract asks that there are not.
- BpfLoader.PairCodeSection: the rest of `readCodeSections` is not modelled, including its silent return at a code section without functions and its read of the header after the last.
- BpfLoader.ApplyMapRelo: relocation offsets past the code, which the source does not check, are outside the contract; names end at the string table's end if no NUL does.
