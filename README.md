# memprofiler in Dafny

A model of the bookkeeping half of an `LD_PRELOAD` memory profiler. The
profiler interposes `malloc`, `calloc`, `realloc` and `free`. It keeps:

- the number of successful `malloc` and `calloc` calls and the bytes they
  requested (`realloc` adds to neither);
- a singly linked list of live blocks, keyed by address, each with the
  size and time it was recorded;
- one "resolved" flag for each of the four real functions;
- the re-entrancy guard `no_hook`;
- the time of the last report.

Once five seconds have passed since the last report, the next hook call
that reaches `print_stats` reports the live count and the live bytes. A
failed `malloc` or `calloc`, a `calloc` made during its own symbol lookup
(which gets `alloc_buff`), a failed `realloc(NULL, n)` and
`free(alloc_buff)` return before that point and never report
(memprofiler.c:220, 233-235, 245, 285, 299).

The model has five modules:

| file | module | what it holds |
|---|---|---|
| `assoc_list.dfy` | `AssocList` | The value view of the list: a sequence of `(address, value)` pairs, head first. Gives first-match search (`FirstIndex`, `Lookup`), removal of the first match (`Remove`) and their lemmas. |
| `linked_list.dfy` | `LinkedList` | `Node` and the head-pointer cell `ListHead` as classes. `ListInsert`, `ListDelete` and `ListFind` are methods that change (or, for find, read) the heap. Each is proved against the value view of the chain of nodes. |
| `profiler_model.dfy` | `ProfilerModel` | The profiler's globals as one value, `Tracking`. Each hook is a function giving the new state, the pointer returned and the report printed, and so is `Track`, the bookkeeping malloc and calloc share. `AddRecord` and `DelRecord` (add/del_curr_alloc_list) give the new state and a status. `PrintStats` gives the new state and the report. The two counter routines have no function of their own: `Track` does both increments. `Step`/`Run` apply sequences of hook calls. |
| `profiler_properties.dfy` | `ProfilerProperties` | What the hooks promise, proved of those functions. Covers counting, recording, removal, rate limiting, monotone counters, flags that stay resolved, and at most one record per address. |
| `memprofiler.dfy` | `MemProfiler` | Class `Profiler`, whose fields are the globals. There is one method per routine and per hook. The list routines, `PrintStats`, `TrackBlock` and the hooks each end in the state (with the status, pointer or report) that the matching `ProfilerModel` function gives. `IncrementOverallNumAlloc`, `AddOverallAllocSz` and `ResolveCalloc` state their new state as direct field updates instead. `PrintStats` walks the linked list with a loop. `Repr()` is the set of objects a profiler owns: itself, the list's head cell and every node. The constructor allocates them all fresh, and every method adds only fresh objects, so hook calls can follow one another on one object (`Apply`, `Replay`). |

These become parameters of the hooks:

- what the real allocator returns, `realRet`: an address, or `NULL` = 0;
- whether the real `calloc` produced the tracking node, `nodeOk`;
- the clock, `now`;
- the `calloc` requests that the symbol lookup makes while it runs, `lookupCalls`.

## Model

| member | source | states |
|---|---|---|
| AssocList.FirstIndex | linked_list.c:56-59 | The scan stops at a position no greater than the length. Any pair there has the key, and every earlier pair has another key. |
| AssocList.FirstIndexAt | linked_list.c:74-76 | A position with the key (or the end), where every earlier pair has another key, is the first match. |
| AssocList.Lookup | linked_list.c:69-83 | The lookup finds a value exactly when some pair has the key, and the pair found holds that key and value. |
| AssocList.Remove | linked_list.c:40-67 | Deleting a key shortens the list by one exactly when the key is present. An absent key leaves the list as it was. |
| AssocList.RemoveShape | linked_list.c:48-66 | Deleting a present key shortens the list by exactly one and keeps the rest in order. Deleting an absent key changes nothing. |
| AssocList.LookupPrepend | linked_list.c:34-36 | After a prepend, the new key finds the new value. Every other key finds what it found before. |
| AssocList.LookupRemoveOther | linked_list.c:40-67 | Removing one key leaves the lookup of every other key unchanged. |
| AssocList.RemoveUnique | linked_list.c:40-67 | With unique keys, the removed key is gone afterwards and the keys stay unique. |
| AssocList.PrependUnique | linked_list.c:28-38 | Prepending an absent key keeps the keys unique. |
| LinkedList.Node.constructor | memprofiler.c:123-133 | The zero-filled node carries the given key and payload, with a null link. |
| LinkedList.ListHead.constructor | memprofiler.c:99 | The list starts empty: a NULL head pointer. |
| LinkedList.ListInsert | linked_list.c:28-38 | With a NULL head cell, nothing changes. Otherwise the node becomes the head, the chain is the node followed by the old chain, and the contents are its pair followed by the old ones. |
| LinkedList.UnlinkHead | linked_list.c:50-53 | When the head node matches, the head pointer moves to its successor and the chain loses its first node. |
| LinkedList.Unlink | linked_list.c:61-63 | Relinking `prev` past `current` removes exactly node i from the chain and pair i from the contents. The head and the unlinked node stay as they were. |
| LinkedList.ListDelete | linked_list.c:40-67 | Returns the first node with the key, or null exactly when there is none. The chain loses exactly that node, and the contents become `Remove(old contents, key)`. A null head cell returns null. |
| LinkedList.ListFind | linked_list.c:69-83 | Changes nothing. It returns the first node with the key, non-null exactly when the key is present, holding the value `Lookup` gives. |
| ProfilerModel.AddRecord | memprofiler.c:121-141 | Changes only the records. The failure case without a tracking node is `AddWithoutNode`. |
| ProfilerModel.DelRecord | memprofiler.c:143-160 | Changes only the records. |
| ProfilerModel.PrintStats | memprofiler.c:162-205 | Changes only the time of the last report. |
| ProfilerModel.Track | memprofiler.c:220-225 | Returns the block. The count goes up by one and the bytes by `bytes`, and the flags and `no_hook` are unchanged. With a node, the records gain `(ptr, (size, now))` at the head; without one, they are unchanged. The report is that of an unforced `print_stats` on the new state. |
| ProfilerModel.Malloc | memprofiler.c:210-227 | Returns what the real malloc returned and leaves malloc resolved, with `no_hook` unchanged. A NULL result changes nothing else and prints nothing. |
| ProfilerModel.Calloc | memprofiler.c:229-254 | During the lookup, returns `alloc_buff` and changes nothing. Otherwise it returns the real result and leaves calloc resolved. `no_hook` is never changed. |
| ProfilerModel.Realloc | memprofiler.c:256-290 | Returns the real result, leaves realloc resolved, and keeps both counters. Unless both `ptr` and the real result are NULL, the report is that of an unforced `print_stats` on the new state; `realloc(NULL, n)` that fails changes only the resolved flag and prints nothing. |
| ProfilerModel.Free | memprofiler.c:292-307 | Leaves free resolved and keeps both counters. Freeing `alloc_buff` changes nothing else and prints nothing. Any other address ends in an unforced `print_stats`, whose state and report are the result. |
| ProfilerModel.Fini | memprofiler.c:318-323 | Always prints a report, and changes only the time of the last report, to `now`. |
| ProfilerModel.LiveBytesSnoc | memprofiler.c:184-189 | Each record the walk passes adds its size to the running total. |
| ProfilerModel.LiveBytesRemoveAt | memprofiler.c:143-160 | Dropping a record lowers the live byte total by exactly its size. |
| ProfilerProperties.MallocSucceeds | memprofiler.c:218-226 | A non-null result is returned as is, counted once, and adds `size` bytes. With a node, it is recorded as `(size, now)`, which adds one record and `size` live bytes. Without one, the records are untouched. Other addresses keep their records. |
| ProfilerProperties.CallocSucceeds | memprofiler.c:237-251 | The call resolves calloc, counts one allocation and `nmemb * size` bytes, and records only `size`. |
| ProfilerProperties.CallocFails | memprofiler.c:237-253 | A NULL result changes nothing beyond the resolved flag. |
| ProfilerProperties.ReallocMovesRecord | memprofiler.c:268-283 | The old record is gone (unless the block stayed in place), even when the real call fails. A new result with a node is recorded as `(size, now)`. Other addresses are unaffected. |
| ProfilerProperties.FreeNull | memprofiler.c:299-305 | `free(NULL)` is exactly an unforced `print_stats` after resolving free. It keeps the records and both counters, but may still print and restart the window. |
| ProfilerProperties.FreeTracked | memprofiler.c:299-304 | Freeing a tracked block removes exactly its record: one record fewer, its size off the live total, the address not found, the other records and both counters unchanged. |
| ProfilerProperties.FreeUntracked | memprofiler.c:299-304 | Freeing an address with no record (and not `alloc_buff` or NULL) leaves the records as they are, because `del_curr_alloc_list` finds no node and returns -1 (memprofiler.c:151-154): the result is exactly an unforced `print_stats` after resolving free. |
| ProfilerProperties.DelUntracked | memprofiler.c:147-154 | Deleting an untracked address returns -1 and leaves the state unchanged. |
| ProfilerProperties.AddWithoutNode | memprofiler.c:123-127 | Without a tracking node, the call returns -1 and leaves the state unchanged. |
| ProfilerProperties.PrintStatsRateLimited | memprofiler.c:174-177 | An unforced report within five seconds changes nothing and prints nothing. |
| ProfilerProperties.PrintStatsReports | memprofiler.c:178-192 | A due or forced report restarts the window. It prints the time, both counters, the number of records and the sum of their sizes. |
| ProfilerProperties.StepCountersMonotone | memprofiler.c:105-119 | No hook call lowers either counter. |
| ProfilerProperties.RunCountersMonotone | memprofiler.c:105-119 | Both counters are non-decreasing over any sequence of hook calls. |
| ProfilerProperties.MallocResolves | memprofiler.c:214-216 | malloc resolves the real malloc and no other flag. |
| ProfilerProperties.CallocResolves | memprofiler.c:233-241 | calloc resolves the real calloc unless it is inside the lookup, and no other flag. |
| ProfilerProperties.ReallocResolves | memprofiler.c:261-263 | realloc resolves the real realloc and no other flag. |
| ProfilerProperties.FreeResolves | memprofiler.c:294-296 | free resolves the real free and no other flag. |
| ProfilerProperties.StepKeepsResolved | memprofiler.c:210-307 | No hook call unresolves a real function. |
| ProfilerProperties.RunKeepsResolved | memprofiler.c:210-307 | A resolved real function stays resolved over any sequence of calls. |
| ProfilerProperties.RunOfAllocs | memprofiler.c:210-254 | Outside calloc's lookup, any n successful, tracked mallocs and callocs raise the count and the number of records by n. |
| ProfilerProperties.ReallocOfNull | memprofiler.c:259-283 | A successful `realloc(NULL, n)` records the block like malloc does, but counts neither the allocation nor its bytes. |
| ProfilerProperties.AddKeepsUnique | memprofiler.c:121-141 | Recording an untracked address keeps the addresses unique. |
| ProfilerProperties.DelKeepsUnique | memprofiler.c:143-160 | Deleting keeps the addresses unique and leaves the address untracked. |
| ProfilerProperties.MallocKeepsUnique | memprofiler.c:210-227 | malloc keeps the addresses unique when handed an untracked address. |
| ProfilerProperties.CallocKeepsUnique | memprofiler.c:229-254 | The same for calloc. |
| ProfilerProperties.ReallocKeepsUnique | memprofiler.c:256-290 | The same for realloc, which may also hand back the block it was given. |
| ProfilerProperties.FreeKeepsUnique | memprofiler.c:292-307 | free keeps the addresses unique. |
| ProfilerProperties.StepKeepsUnique | memprofiler.c:210-307 | Each hook keeps at most one record per address, when the real allocator hands out an untracked address. |
| ProfilerProperties.RunKeepsUnique | memprofiler.c:210-307 | If the real allocator never returns a tracked address, there is never more than one record per address. |
| ProfilerProperties.MallocThenFree | memprofiler.c:210-307 | `malloc(100)` then `free` of the block: one allocation and 100 bytes counted, one record in between, none at the end. |
| ProfilerProperties.CallocTenByFour | memprofiler.c:243-250 | `calloc(10, 4)` counts 40 bytes and records size 4. |
| MemProfiler.Profiler.constructor | memprofiler.c:83-99 | Given the non-NULL address of the static `alloc_buff`, the globals start as the initial state: counters zero, an empty list, nothing resolved. Every object of `Repr()` is freshly allocated. |
| MemProfiler.Profiler.IncrementOverallNumAlloc | memprofiler.c:105-111 | One more allocation is counted, nothing else changes (`Repr()` included), and it returns 0. |
| MemProfiler.Profiler.AddOverallAllocSz | memprofiler.c:113-119 | `size` more bytes are counted, nothing else changes (`Repr()` included), and it returns 0. |
| MemProfiler.Profiler.AddCurrAllocList | memprofiler.c:121-141 | The new state and status are those of `AddRecord`. When the node is allocated, the head of the list is a freshly allocated node. |
| MemProfiler.Profiler.DelCurrAllocList | memprofiler.c:143-160 | The new state and status are those of `DelRecord`, through `ListDelete`. It allocates nothing: `Repr()` can only shrink. |
| MemProfiler.Profiler.PrintStats | memprofiler.c:162-205 | The state and report are those of the `PrintStats` function. The loop counts the nodes and sums their sizes, which equal the number of records and `LiveBytes`. `Repr()` is unchanged. |
| MemProfiler.Profiler.TrackBlock | memprofiler.c:220-225 | The count, size, record and report steps of a successful malloc or calloc leave the state of `Track`. |
| MemProfiler.Profiler.Malloc | memprofiler.c:210-227 | The state, return value and report are those of the `Malloc` function. |
| MemProfiler.Profiler.Calloc | memprofiler.c:229-254 | The state, return value and report are those of the `Calloc` function. A call made during the lookup changes no field. |
| MemProfiler.Profiler.ResolveCalloc | memprofiler.c:237-241 | Every calloc made during the lookup gets `alloc_buff`. Afterwards calloc is resolved and `no_hook` is lowered again. |
| MemProfiler.Profiler.ForgetBlock | memprofiler.c:268-275 | The look-up (read only) and the delete of the old block leave the state of `DelRecord`. `Repr()` can only shrink. |
| MemProfiler.Profiler.RecordReallocated | memprofiler.c:276-287 | After the old record is gone, a non-NULL result is recorded as in `AddRecord`, and the report is an unforced `print_stats` exactly when either pointer is non-NULL. |
| MemProfiler.Profiler.Realloc | memprofiler.c:256-290 | The state, return value and report are those of the `Realloc` function. |
| MemProfiler.Profiler.Free | memprofiler.c:292-307 | The state and report are those of the `Free` function. |
| MemProfiler.Profiler.Fini | memprofiler.c:318-323 | The state and report are those of the forced `PrintStats`. |
| MemProfiler.Profiler.Apply | memprofiler.c:210-323 | One hook call on the object ends in the state `Step` gives for it, and adds only fresh objects to `Repr()`. |
| MemProfiler.Replay | memprofiler.c:210-323 | Any sequence of hook calls made one after another on the same profiler object ends in the state `Run` gives, the object stays valid, and neither counter goes down. |

## Left out

- Threads: the mutex `alloc_lock` and its lock and unlock calls are not modelled, and the thread-local `no_hook` is a plain field. Every hook runs as one sequential step.
- Real allocator and `dlsym`: neither is modelled. Their answers are parameters (`realRet`, `nodeOk`, `lookupCalls`), and resolving a real function sets a flag. The model assumes `dlsym` always finds the symbol: in the C a failed lookup leaves the `orig_*` pointer NULL, calls through it anyway, and looks it up again on the next call (memprofiler.c:214-218), whereas the model sets the flag unconditionally.
- Actual freeing: the calls to `orig_free` on the client block, the node and its payload are not modelled. The model tracks records, not memory.
- `time()` and `ctime()`: not modelled. One `now` per hook stands for the clock, read once in `add_curr_alloc_list` and once in `print_stats`.
- Logging: the log macros and the `fprintf` output of `print_stats` are not modelled. A report is returned as a `Report` value instead of being printed.
- Bookkeeping allocations: `add_curr_alloc_list` and `del_curr_alloc_list` call `orig_calloc` and `orig_free` without checking that they are resolved. The model treats them as always callable.
- Payload allocation: the second `orig_calloc`, for the payload, is dereferenced without a check. The model treats it as succeeding; only the node allocation can fail (`nodeOk`).
- Integer widths: `size_t`, `long` and `long long` are unbounded naturals. Wrap-around of `nmemb * size` and of the counters is not modelled.
- Payload type: the `void *val` payload is typed as `AllocInfo`, so the casts of `val` and the `void*` key are not modelled.
- LinkedList.ListFind: returns the matching node instead of `&node->val`. realloc casts that address to `alloc_info_t*` and never uses it, so only the node's `val` can be stated.
- Realloc size branch: the `curr_size` adjustment in realloc is dead code, because `curr_size` stays 0, so the model has no branch for it.
- `init` constructor: it only logs, so it is not modelled.
- Size and age histograms: not implemented in the source, so not modelled.
- Tests: the workload programs `test.c` and `test_mt.c` are not part of this model.
- MemProfiler.Profiler.TrackBlock, MemProfiler.Profiler.ForgetBlock, MemProfiler.Profiler.RecordReallocated, MemProfiler.Profiler.ResolveCalloc: the source has no such functions. These methods factor out inline blocks of the hooks.
- MemProfiler.Profiler.Apply, MemProfiler.Replay: the source has no such functions. They stand for a client program that calls the hooks one after another.
- Node deallocation: Dafny has no deallocation, so a node that `del_curr_alloc_list` releases with `orig_free` stays allocated in the model. It only leaves the list, and with it `Repr()`.
