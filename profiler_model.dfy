/** The bookkeeping state of the allocation profiler (memprofiler.c) as a
    value, and one function per internal routine and per hook giving the
    state after the call.  The imperative Profiler class is proved to follow
    these functions; the lemmas here state what the hooks promise. */
module ProfilerModel {
  import opened AssocList

  /** alloc_info_t: the size recorded for a live block and when it was recorded. */
  datatype AllocInfo = AllocInfo(size: nat, time: int)

  /** The live-allocation records, head of curr_alloc_list first. */
  type Records = seq<(Ptr, AllocInfo)>

  /** What print_stats prints: the time, both overall counters, and the
      number and summed size of the live records it walks. */
  datatype Report = Report(
    time: int,
    overallNumAlloc: nat,
    overallAllocSz: nat,
    currNumAlloc: nat,
    currAllocSz: nat)

  /** The globals of the profiler:
      overall_num_alloc, overall_alloc_sz, curr_alloc_list, whether each of
      orig_malloc / orig_calloc / orig_realloc / orig_free is resolved,
      no_hook and time_last_printed. */
  datatype Tracking = Tracking(
    overallNumAlloc: nat,
    overallAllocSz: nat,
    records: Records,
    mallocResolved: bool,
    callocResolved: bool,
    reallocResolved: bool,
    freeResolved: bool,
    noHook: bool,
    timeLastPrinted: int)

  /** The state at load time: counters zero, list empty, nothing resolved. */
  const Initial: Tracking := Tracking(0, 0, [], false, false, false, false, false, 0)

  /** Seconds that must pass between two unforced reports. */
  const ReportInterval: int := 5

  /** The sum of the recorded sizes. */
  function LiveBytes(s: Records): nat
  {
    if s == [] then 0 else s[0].1.size + LiveBytes(s[1..])
  }

  lemma {:induction false} LiveBytesConcat(a: Records, b: Records)
    ensures LiveBytes(a + b) == LiveBytes(a) + LiveBytes(b)
  {
    if a == [] {
      assert a + b == b;
    } else {
      assert (a + b)[1..] == a[1..] + b;
      LiveBytesConcat(a[1..], b);
    }
  }

  /** The running total of a walk from the head: one more record adds its size. */
  lemma LiveBytesSnoc(s: Records, i: nat)
    requires i < |s|
    ensures LiveBytes(s[..i + 1]) == LiveBytes(s[..i]) + s[i].1.size
  {
    assert s[..i + 1] == s[..i] + [s[i]];
    LiveBytesConcat(s[..i], [s[i]]);
    assert [s[i]][1..] == s[..0];
  }

  /** Dropping the record at `i` lowers the live byte total by its size. */
  lemma LiveBytesRemoveAt(s: Records, i: nat)
    requires i < |s|
    ensures LiveBytes(RemoveAt(s, i)) + s[i].1.size == LiveBytes(s)
  {
    var before, after := s[..i], s[i + 1..];
    assert s == before + ([s[i]] + after);
    assert LiveBytes([s[i]] + after) == s[i].1.size + LiveBytes(after) by {
      assert ([s[i]] + after)[1..] == after;
    }
    LiveBytesConcat(before, [s[i]] + after);
    LiveBytesConcat(before, after);
  }

  // ---------------------------------------------------------------- internal routines

  /** The state after a list routine and the status it returns (0, or -1
      on failure). */
  datatype Updated = Updated(state: Tracking, status: int)

  /** The state after print_stats and what it printed, if anything. */
  datatype Printed = Printed(state: Tracking, report: Option<Report>)

  /** add_curr_alloc_list: `nodeOk` says whether the real calloc supplied
      the tracking node; without one nothing is recorded and -1 returned.
      The record is stamped with `now`. */
  function AddRecord(t: Tracking, ptr: Ptr, size: nat, nodeOk: bool, now: int): (r: Updated)
    ensures r.state == t.(records := r.state.records)
  {
    if !nodeOk then Updated(t, -1)
    else Updated(t.(records := [(ptr, AllocInfo(size, now))] + t.records), 0)
  }

  /** del_curr_alloc_list: removes the first record for `ptr`, or returns -1
      when `ptr` is not tracked. */
  function DelRecord(t: Tracking, ptr: Ptr): (r: Updated)
    ensures r.state == t.(records := r.state.records)
  {
    if FirstIndex(t.records, ptr) < |t.records| then Updated(t.(records := Remove(t.records, ptr)), 0)
    else Updated(t, -1)
  }

  /** print_stats: unless forced, reports only once five seconds have passed
      since the last report; a report restarts the interval. */
  function PrintStats(t: Tracking, force: bool, now: int): (r: Printed)
    ensures r.state == t.(timeLastPrinted := r.state.timeLastPrinted)
  {
    if !force && now - t.timeLastPrinted < ReportInterval then Printed(t, None)
    else
      Printed(t.(timeLastPrinted := now),
       Some(Report(now, t.overallNumAlloc, t.overallAllocSz, |t.records|, LiveBytes(t.records))))
  }

  // ---------------------------------------------------------------- hooks

  /** The result of a hook: the new state, the pointer returned to the
      client and the report printed on the way, if any. */
  datatype HookResult = HookResult(state: Tracking, ret: Ptr, report: Option<Report>)

  /** What malloc and calloc do with a block they hand out: count it and
      `bytes`, record it with `size`, and report if due. */
  function Track(t: Tracking, ptr: Ptr, bytes: nat, size: nat, nodeOk: bool, now: int): (r: HookResult)
    ensures r.ret == ptr
    ensures r.state == t.(overallNumAlloc := t.overallNumAlloc + 1, overallAllocSz := t.overallAllocSz + bytes,
                          records := r.state.records, timeLastPrinted := r.state.timeLastPrinted)
    ensures r.state.records == if nodeOk then [(ptr, AllocInfo(size, now))] + t.records else t.records
    ensures Printed(r.state, r.report) == PrintStats(r.state.(timeLastPrinted := t.timeLastPrinted), false, now)
  {
    var t1 := t.(overallNumAlloc := t.overallNumAlloc + 1);
    var t2 := t1.(overallAllocSz := t1.overallAllocSz + bytes);
    var t3 := AddRecord(t2, ptr, size, nodeOk, now).state;
    var printed := PrintStats(t3, false, now);
    HookResult(printed.state, ptr, printed.report)
  }

  /** malloc: `realRet` is what the real malloc returned. */
  function Malloc(t: Tracking, size: nat, realRet: Ptr, nodeOk: bool, now: int): (r: HookResult)
    ensures r.ret == realRet && r.state.mallocResolved
    ensures r.state.noHook == t.noHook
    ensures realRet == NULL ==> r.state == t.(mallocResolved := true) && r.report == None
  {
    var t1 := t.(mallocResolved := true);
    if realRet == NULL then HookResult(t1, NULL, None)
    else Track(t1, realRet, size, size, nodeOk, now)
  }

  /** Whether calloc is called back from inside its own symbol lookup. */
  predicate Bootstrapping(t: Tracking)
  {
    t.noHook && !t.callocResolved
  }

  /** calloc: inside the lookup window it hands out the static buffer at
      `allocBuff`; otherwise it counts nmemb * size bytes but records only
      `size`. */
  function Calloc(t: Tracking, allocBuff: Ptr, nmemb: nat, size: nat, realRet: Ptr, nodeOk: bool, now: int): (r: HookResult)
    ensures r.ret == if Bootstrapping(t) then allocBuff else realRet
    ensures Bootstrapping(t) ==> r.state == t && r.report == None
    ensures !Bootstrapping(t) ==> r.state.callocResolved
    ensures r.state.noHook == t.noHook
  {
    if Bootstrapping(t) then HookResult(t, allocBuff, None)
    else
      var t1 := t.(callocResolved := true);
      if realRet == NULL then HookResult(t1, NULL, None)
      else Track(t1, realRet, nmemb * size, size, nodeOk, now)
  }

  /** realloc: the old record goes whether or not the real call succeeded,
      a new one is added for a non-null result, and neither counter moves. */
  function Realloc(t: Tracking, ptr: Ptr, size: nat, realRet: Ptr, nodeOk: bool, now: int): (r: HookResult)
    ensures r.ret == realRet && r.state.reallocResolved
    ensures r.state.overallNumAlloc == t.overallNumAlloc && r.state.overallAllocSz == t.overallAllocSz
    ensures ptr != NULL || realRet != NULL ==>
              Printed(r.state, r.report) == PrintStats(r.state.(timeLastPrinted := t.timeLastPrinted), false, now)
    ensures ptr == NULL && realRet == NULL ==> r == HookResult(t.(reallocResolved := true), NULL, None)
  {
    var t1 := t.(reallocResolved := true);
    var t2 := if ptr != NULL then DelRecord(t1, ptr).state else t1;
    var t3 := if realRet != NULL then AddRecord(t2, realRet, size, nodeOk, now).state else t2;
    if ptr != NULL || realRet != NULL then
      var printed := PrintStats(t3, false, now);
      HookResult(printed.state, realRet, printed.report)
    else HookResult(t3, realRet, None)
  }

  /** free: the static buffer is ignored; any other pointer may trigger a
      report, and a non-null one loses its record. */
  function Free(t: Tracking, allocBuff: Ptr, ptr: Ptr, now: int): (r: Printed)
    ensures r.state.freeResolved
    ensures r.state.overallNumAlloc == t.overallNumAlloc && r.state.overallAllocSz == t.overallAllocSz
    ensures ptr == allocBuff ==> r == Printed(t.(freeResolved := true), None)
    ensures ptr != allocBuff ==> r == PrintStats(r.state.(timeLastPrinted := t.timeLastPrinted), false, now)
  {
    var t1 := t.(freeResolved := true);
    if ptr == allocBuff then Printed(t1, None)
    else
      var t2 := if ptr != NULL then DelRecord(t1, ptr).state else t1;
      PrintStats(t2, false, now)
  }

  /** fini: the forced report at unload. */
  function Fini(t: Tracking, now: int): (r: Printed)
    ensures r.state == t.(timeLastPrinted := now) && r.report.Some?
  {
    PrintStats(t, true, now)
  }

  // ---------------------------------------------------------------- call sequences

  /** One hook call together with the answers of the real allocator. */
  datatype Call =
    | MallocCall(size: nat, realRet: Ptr, nodeOk: bool, now: int)
    | CallocCall(nmemb: nat, size: nat, realRet: Ptr, nodeOk: bool, now: int)
    | ReallocCall(ptr: Ptr, size: nat, realRet: Ptr, nodeOk: bool, now: int)
    | FreeCall(ptr: Ptr, now: int)
    | FiniCall(now: int)

  function Step(t: Tracking, allocBuff: Ptr, c: Call): Tracking
  {
    match c
    case MallocCall(size, realRet, nodeOk, now) => Malloc(t, size, realRet, nodeOk, now).state
    case CallocCall(nmemb, size, realRet, nodeOk, now) => Calloc(t, allocBuff, nmemb, size, realRet, nodeOk, now).state
    case ReallocCall(ptr, size, realRet, nodeOk, now) => Realloc(t, ptr, size, realRet, nodeOk, now).state
    case FreeCall(ptr, now) => Free(t, allocBuff, ptr, now).state
    case FiniCall(now) => Fini(t, now).state
  }

  /** The state after the calls `cs`, in order. */
  function Run(t: Tracking, allocBuff: Ptr, cs: seq<Call>): Tracking
    decreases |cs|
  {
    if cs == [] then t else Run(Step(t, allocBuff, cs[0]), allocBuff, cs[1..])
  }
}
