/** What the hooks of memprofiler.c promise about the tracking state, proved
    of the functions in ProfilerModel. */
module ProfilerProperties {
  import opened AssocList
  import opened ProfilerModel

  // ---------------------------------------------------------------- malloc

  /** A successful malloc is counted once with its full size and, when the
      tracking node could be allocated, recorded under the returned address
      with that size; other addresses keep their records. */
  lemma MallocSucceeds(t: Tracking, size: nat, realRet: Ptr, nodeOk: bool, now: int)
    requires realRet != NULL
    ensures var r := Malloc(t, size, realRet, nodeOk, now);
            && r.ret == realRet
            && r.state.overallNumAlloc == t.overallNumAlloc + 1
            && r.state.overallAllocSz == t.overallAllocSz + size
            && (nodeOk ==> Lookup(r.state.records, realRet) == Some(AllocInfo(size, now)))
            && (nodeOk ==> |r.state.records| == |t.records| + 1)
            && (nodeOk ==> LiveBytes(r.state.records) == LiveBytes(t.records) + size)
            && (!nodeOk ==> r.state.records == t.records)
            && forall other :: other != realRet ==> Lookup(r.state.records, other) == Lookup(t.records, other)
  {
    var info := AllocInfo(size, now);
    forall other | other != realRet
      ensures Lookup(Malloc(t, size, realRet, nodeOk, now).state.records, other) == Lookup(t.records, other)
    {
      LookupPrepend((realRet, info), t.records, other);
    }
    LookupPrepend((realRet, info), t.records, realRet);
  }


  // ---------------------------------------------------------------- calloc


  /** A successful calloc adds nmemb * size to the byte counter but records
      only the element size. */
  lemma CallocSucceeds(t: Tracking, allocBuff: Ptr, nmemb: nat, size: nat, realRet: Ptr, nodeOk: bool, now: int)
    requires !(t.noHook && !t.callocResolved) && realRet != NULL
    ensures var r := Calloc(t, allocBuff, nmemb, size, realRet, nodeOk, now);
            && r.ret == realRet
            && r.state.callocResolved
            && r.state.overallNumAlloc == t.overallNumAlloc + 1
            && r.state.overallAllocSz == t.overallAllocSz + nmemb * size
            && (nodeOk ==> Lookup(r.state.records, realRet) == Some(AllocInfo(size, now)))
            && (nodeOk ==> LiveBytes(r.state.records) == LiveBytes(t.records) + size)
            && (!nodeOk ==> r.state.records == t.records)
  {
    LookupPrepend((realRet, AllocInfo(size, now)), t.records, realRet);
  }

  /** A failed calloc returns NULL, leaves counters and records alone, and
      leaves the real calloc resolved. */
  lemma CallocFails(t: Tracking, allocBuff: Ptr, nmemb: nat, size: nat, nodeOk: bool, now: int)
    requires !(t.noHook && !t.callocResolved)
    ensures Calloc(t, allocBuff, nmemb, size, NULL, nodeOk, now) == HookResult(t.(callocResolved := true), NULL, None)
  {
  }

  // ---------------------------------------------------------------- realloc


  /** realloc of a tracked block: the old record is gone afterwards (unless
      the block stayed in place), and a successful call records the new
      address with the new size; other addresses keep their records. */
  lemma {:induction false} ReallocMovesRecord(t: Tracking, ptr: Ptr, size: nat, realRet: Ptr, nodeOk: bool, now: int)
    requires KeysUnique(t.records) && ptr != NULL
    ensures var r := Realloc(t, ptr, size, realRet, nodeOk, now);
            && (realRet != ptr ==> !HasKey(r.state.records, ptr))
            && (realRet != NULL && nodeOk ==> Lookup(r.state.records, realRet) == Some(AllocInfo(size, now)))
            && (realRet == NULL ==> r.state.records == Remove(t.records, ptr))
            && forall other :: other != ptr && other != realRet ==>
                 Lookup(r.state.records, other) == Lookup(t.records, other)
  {
    var removed := Remove(t.records, ptr);
    RemoveUnique(t.records, ptr);
    assert DelRecord(t.(reallocResolved := true), ptr).state.records == removed by {
      RemoveShape(t.records, ptr);
    }
    var info := AllocInfo(size, now);
    if realRet != NULL && nodeOk {
      LookupPrepend((realRet, info), removed, realRet);
      LookupPrepend((realRet, info), removed, ptr);
    }
    forall other | other != ptr && other != realRet
      ensures Lookup(Realloc(t, ptr, size, realRet, nodeOk, now).state.records, other) == Lookup(t.records, other)
    {
      LookupRemoveOther(t.records, ptr, other);
      LookupPrepend((realRet, info), removed, other);
    }
  }


  // ---------------------------------------------------------------- free


  /** free(NULL) is an unforced report and nothing else: it keeps the
      records and the counters, but may print and restart the window. */
  lemma FreeNull(t: Tracking, allocBuff: Ptr, now: int)
    requires allocBuff != NULL
    ensures Free(t, allocBuff, NULL, now) == PrintStats(t.(freeResolved := true), false, now)
    ensures var t' := Free(t, allocBuff, NULL, now).state;
            && t'.records == t.records
            && t'.overallNumAlloc == t.overallNumAlloc
            && t'.overallAllocSz == t.overallAllocSz
  {
  }

  /** Freeing a tracked block removes exactly its record: one record fewer,
      its size off the live total, the address no longer found, the other
      records and both counters unchanged. */
  lemma FreeTracked(t: Tracking, allocBuff: Ptr, ptr: Ptr, now: int)
    requires KeysUnique(t.records) && HasKey(t.records, ptr)
    requires ptr != NULL && ptr != allocBuff
    ensures var t' := Free(t, allocBuff, ptr, now).state;
            && |t'.records| == |t.records| - 1
            && LiveBytes(t'.records) + Lookup(t.records, ptr).value.size == LiveBytes(t.records)
            && Lookup(t'.records, ptr) == None
            && (forall other :: other != ptr ==> Lookup(t'.records, other) == Lookup(t.records, other))
            && t'.overallNumAlloc == t.overallNumAlloc
            && t'.overallAllocSz == t.overallAllocSz
  {
    var i := FirstIndex(t.records, ptr);
    RemoveShape(t.records, ptr);
    RemoveUnique(t.records, ptr);
    LiveBytesRemoveAt(t.records, i);
    forall other | other != ptr
      ensures Lookup(Remove(t.records, ptr), other) == Lookup(t.records, other)
    {
      LookupRemoveOther(t.records, ptr, other);
    }
  }

  /** Freeing an address that has no record leaves the records alone
      (del_curr_alloc_list fails with -1), and may still report. */
  lemma FreeUntracked(t: Tracking, allocBuff: Ptr, ptr: Ptr, now: int)
    requires ptr != NULL && ptr != allocBuff && !HasKey(t.records, ptr)
    ensures Free(t, allocBuff, ptr, now) == PrintStats(t.(freeResolved := true), false, now)
    ensures Free(t, allocBuff, ptr, now).state.records == t.records
  {
  }

  /** An untracked address is reported as not found (-1) and changes nothing. */
  lemma DelUntracked(t: Tracking, ptr: Ptr)
    requires !HasKey(t.records, ptr)
    ensures DelRecord(t, ptr) == Updated(t, -1)
  {
  }

  /** A tracking node that cannot be allocated records nothing (-1). */
  lemma AddWithoutNode(t: Tracking, ptr: Ptr, size: nat, now: int)
    ensures AddRecord(t, ptr, size, false, now) == Updated(t, -1)
  {
  }

  // ---------------------------------------------------------------- reports

  /** An unforced report inside the five-second window changes nothing. */
  lemma PrintStatsRateLimited(t: Tracking, now: int)
    requires now - t.timeLastPrinted < ReportInterval
    ensures PrintStats(t, false, now) == Printed(t, None)
  {
  }

  /** A due or forced report shows the counters, the number of records and
      the sum of their sizes, and restarts the window. */
  lemma PrintStatsReports(t: Tracking, force: bool, now: int)
    requires force || now - t.timeLastPrinted >= ReportInterval
    ensures PrintStats(t, force, now)
            == Printed(t.(timeLastPrinted := now), Some(Report(now, t.overallNumAlloc, t.overallAllocSz, |t.records|, LiveBytes(t.records))))
  {
  }


  // ---------------------------------------------------------------- call sequences

  /** No hook lowers a counter. */
  lemma StepCountersMonotone(t: Tracking, allocBuff: Ptr, c: Call)
    ensures Step(t, allocBuff, c).overallNumAlloc >= t.overallNumAlloc
    ensures Step(t, allocBuff, c).overallAllocSz >= t.overallAllocSz
  {
    match c
    case MallocCall(size, realRet, nodeOk, now) =>
    case CallocCall(nmemb, size, realRet, nodeOk, now) =>
    case ReallocCall(ptr, size, realRet, nodeOk, now) =>
    case FreeCall(ptr, now) =>
    case FiniCall(now) =>
  }

  /** Neither counter ever goes down, whatever the calls. */
  lemma {:induction false} RunCountersMonotone(t: Tracking, allocBuff: Ptr, cs: seq<Call>)
    ensures Run(t, allocBuff, cs).overallNumAlloc >= t.overallNumAlloc
    ensures Run(t, allocBuff, cs).overallAllocSz >= t.overallAllocSz
    decreases |cs|
  {
    if cs != [] {
      var t1 := Step(t, allocBuff, cs[0]);
      StepCountersMonotone(t, allocBuff, cs[0]);
      RunCountersMonotone(t1, allocBuff, cs[1..]);
    }
  }

  /** Every real function resolved in `t` is still resolved in `t'`. */
  predicate ResolvedGrows(t: Tracking, t': Tracking)
  {
    && (t.mallocResolved ==> t'.mallocResolved)
    && (t.callocResolved ==> t'.callocResolved)
    && (t.reallocResolved ==> t'.reallocResolved)
    && (t.freeResolved ==> t'.freeResolved)
  }

  /** malloc resolves the real malloc and no other. */
  lemma MallocResolves(t: Tracking, size: nat, realRet: Ptr, nodeOk: bool, now: int)
    ensures var t' := Malloc(t, size, realRet, nodeOk, now).state;
            && t'.mallocResolved
            && t'.callocResolved == t.callocResolved
            && t'.reallocResolved == t.reallocResolved
            && t'.freeResolved == t.freeResolved
            && t'.noHook == t.noHook
  {
  }

  /** calloc resolves the real calloc, except when called back from its own
      lookup; no other function is resolved. */
  lemma CallocResolves(t: Tracking, allocBuff: Ptr, nmemb: nat, size: nat, realRet: Ptr, nodeOk: bool, now: int)
    ensures var t' := Calloc(t, allocBuff, nmemb, size, realRet, nodeOk, now).state;
            && t'.callocResolved == (!Bootstrapping(t) || t.callocResolved)
            && t'.mallocResolved == t.mallocResolved
            && t'.reallocResolved == t.reallocResolved
            && t'.freeResolved == t.freeResolved
            && t'.noHook == t.noHook
  {
  }

  /** realloc resolves the real realloc and no other. */
  lemma ReallocResolves(t: Tracking, ptr: Ptr, size: nat, realRet: Ptr, nodeOk: bool, now: int)
    ensures var t' := Realloc(t, ptr, size, realRet, nodeOk, now).state;
            && t'.reallocResolved
            && t'.mallocResolved == t.mallocResolved
            && t'.callocResolved == t.callocResolved
            && t'.freeResolved == t.freeResolved
            && t'.noHook == t.noHook
  {
    var t1 := t.(reallocResolved := true);
    var t2 := if ptr != NULL then DelRecord(t1, ptr).state else t1;
    var t3 := if realRet != NULL then AddRecord(t2, realRet, size, nodeOk, now).state else t2;
    assert t3 == t1.(records := t3.records);
  }

  /** free resolves the real free and no other. */
  lemma FreeResolves(t: Tracking, allocBuff: Ptr, ptr: Ptr, now: int)
    ensures var t' := Free(t, allocBuff, ptr, now).state;
            && t'.freeResolved
            && t'.mallocResolved == t.mallocResolved
            && t'.callocResolved == t.callocResolved
            && t'.reallocResolved == t.reallocResolved
            && t'.noHook == t.noHook
  {
  }

  /** No hook unresolves a real function. */
  lemma StepKeepsResolved(t: Tracking, allocBuff: Ptr, c: Call)
    ensures ResolvedGrows(t, Step(t, allocBuff, c))
  {
    match c
    case MallocCall(size, realRet, nodeOk, now) =>
      MallocResolves(t, size, realRet, nodeOk, now);
    case CallocCall(nmemb, size, realRet, nodeOk, now) =>
      CallocResolves(t, allocBuff, nmemb, size, realRet, nodeOk, now);
    case ReallocCall(ptr, size, realRet, nodeOk, now) =>
      ReallocResolves(t, ptr, size, realRet, nodeOk, now);
    case FreeCall(ptr, now) =>
      FreeResolves(t, allocBuff, ptr, now);
    case FiniCall(now) =>
  }

  /** A resolved real function stays resolved, whatever the calls. */
  lemma {:induction false} RunKeepsResolved(t: Tracking, allocBuff: Ptr, cs: seq<Call>)
    ensures ResolvedGrows(t, Run(t, allocBuff, cs))
    decreases |cs|
  {
    if cs != [] {
      var t1 := Step(t, allocBuff, cs[0]);
      StepKeepsResolved(t, allocBuff, cs[0]);
      RunKeepsResolved(t1, allocBuff, cs[1..]);
    }
  }

  /** A malloc or calloc that succeeds and gets its tracking node. */
  predicate AllocSucceeds(c: Call)
  {
    (c.MallocCall? || c.CallocCall?) && c.realRet != NULL && c.nodeOk
  }

  /** Every call is a malloc or calloc that succeeds and gets its tracking node. */
  predicate AllAllocsSucceed(cs: seq<Call>)
  {
    forall i :: 0 <= i < |cs| ==> AllocSucceeds(cs[i])
  }

  /** After n successful mallocs and callocs and no frees, both the overall
      count and the number of live records have grown by n. */
  lemma {:induction false} RunOfAllocs(t: Tracking, allocBuff: Ptr, cs: seq<Call>)
    requires !t.noHook && AllAllocsSucceed(cs)
    ensures Run(t, allocBuff, cs).overallNumAlloc == t.overallNumAlloc + |cs|
    ensures |Run(t, allocBuff, cs).records| == |t.records| + |cs|
    decreases |cs|
  {
    if cs != [] {
      assert AllAllocsSucceed(cs[1..]) by {
        forall i | 0 <= i < |cs[1..]| ensures cs[1..][i] == cs[i + 1] { }
      }
      assert AllocSucceeds(cs[0]);
      var t1 := Step(t, allocBuff, cs[0]);
      assert !t1.noHook && t1.overallNumAlloc == t.overallNumAlloc + 1 && |t1.records| == |t.records| + 1;
      RunOfAllocs(t1, allocBuff, cs[1..]);
    }
  }

  /** realloc(NULL, n) that succeeds records the new block like malloc does,
      but (unlike malloc) counts neither the allocation nor its bytes. */
  lemma ReallocOfNull(t: Tracking, size: nat, realRet: Ptr, nodeOk: bool, now: int)
    requires realRet != NULL
    ensures var r := Realloc(t, NULL, size, realRet, nodeOk, now);
            && r.ret == realRet
            && r.state.overallNumAlloc == t.overallNumAlloc
            && r.state.overallAllocSz == t.overallAllocSz
            && r.state.records == if nodeOk then [(realRet, AllocInfo(size, now))] + t.records else t.records
  {
  }

  /** The real allocator handed out an address that is not tracked (realloc
      may also hand back the block it was given). */
  predicate ReturnsUntracked(t: Tracking, c: Call)
  {
    match c
    case MallocCall(_, realRet, _, _) => realRet == NULL || !HasKey(t.records, realRet)
    case CallocCall(_, _, realRet, _, _) => realRet == NULL || !HasKey(t.records, realRet)
    case ReallocCall(ptr, _, realRet, _, _) => realRet == NULL || realRet == ptr || !HasKey(t.records, realRet)
    case FreeCall(_, _) => true
    case FiniCall(_) => true
  }

  /** The real allocator never returns an address that is still tracked,
      at any point of the calls. */
  predicate AllReturnUntracked(t: Tracking, allocBuff: Ptr, cs: seq<Call>)
    decreases |cs|
  {
    cs == [] || (ReturnsUntracked(t, cs[0]) && AllReturnUntracked(Step(t, allocBuff, cs[0]), allocBuff, cs[1..]))
  }

  lemma AddKeepsUnique(t: Tracking, ptr: Ptr, size: nat, nodeOk: bool, now: int)
    requires KeysUnique(t.records) && !HasKey(t.records, ptr)
    ensures KeysUnique(AddRecord(t, ptr, size, nodeOk, now).state.records)
  {
    if nodeOk {
      PrependUnique((ptr, AllocInfo(size, now)), t.records);
    }
  }

  lemma DelKeepsUnique(t: Tracking, ptr: Ptr)
    requires KeysUnique(t.records)
    ensures KeysUnique(DelRecord(t, ptr).state.records)
    ensures !HasKey(DelRecord(t, ptr).state.records, ptr)
  {
    RemoveUnique(t.records, ptr);
  }

  lemma MallocKeepsUnique(t: Tracking, size: nat, realRet: Ptr, nodeOk: bool, now: int)
    requires KeysUnique(t.records) && (realRet == NULL || !HasKey(t.records, realRet))
    ensures KeysUnique(Malloc(t, size, realRet, nodeOk, now).state.records)
  {
    if realRet != NULL {
      AddKeepsUnique(t, realRet, size, nodeOk, now);
    }
  }

  lemma CallocKeepsUnique(t: Tracking, allocBuff: Ptr, nmemb: nat, size: nat, realRet: Ptr, nodeOk: bool, now: int)
    requires KeysUnique(t.records) && (realRet == NULL || !HasKey(t.records, realRet))
    ensures KeysUnique(Calloc(t, allocBuff, nmemb, size, realRet, nodeOk, now).state.records)
  {
    if realRet != NULL {
      AddKeepsUnique(t, realRet, size, nodeOk, now);
    }
  }

  lemma ReallocKeepsUnique(t: Tracking, ptr: Ptr, size: nat, realRet: Ptr, nodeOk: bool, now: int)
    requires KeysUnique(t.records)
    requires realRet == NULL || realRet == ptr || !HasKey(t.records, realRet)
    ensures KeysUnique(Realloc(t, ptr, size, realRet, nodeOk, now).state.records)
  {
    var t1 := t.(reallocResolved := true);
    var t2 := if ptr != NULL then DelRecord(t1, ptr).state else t1;
    if ptr != NULL {
      DelKeepsUnique(t1, ptr);
      if realRet != NULL && realRet != ptr {
        assert !HasKey(t2.records, realRet) by {
          RemoveShape(t.records, ptr);
        }
      }
    }
    if realRet != NULL {
      AddKeepsUnique(t2, realRet, size, nodeOk, now);
    }
  }

  lemma FreeKeepsUnique(t: Tracking, allocBuff: Ptr, ptr: Ptr, now: int)
    requires KeysUnique(t.records)
    ensures KeysUnique(Free(t, allocBuff, ptr, now).state.records)
  {
    if ptr != NULL {
      DelKeepsUnique(t.(freeResolved := true), ptr);
    }
  }

  /** Each hook keeps at most one record per address. */
  lemma StepKeepsUnique(t: Tracking, allocBuff: Ptr, c: Call)
    requires KeysUnique(t.records) && ReturnsUntracked(t, c)
    ensures KeysUnique(Step(t, allocBuff, c).records)
  {
    match c
    case MallocCall(size, realRet, nodeOk, now) =>
      MallocKeepsUnique(t, size, realRet, nodeOk, now);
    case CallocCall(nmemb, size, realRet, nodeOk, now) =>
      CallocKeepsUnique(t, allocBuff, nmemb, size, realRet, nodeOk, now);
    case ReallocCall(ptr, size, realRet, nodeOk, now) =>
      ReallocKeepsUnique(t, ptr, size, realRet, nodeOk, now);
    case FreeCall(ptr, now) =>
      FreeKeepsUnique(t, allocBuff, ptr, now);
    case FiniCall(now) =>
  }

  /** The registry keeps at most one record per address as long as the real
      allocator never hands out an address that is still tracked. */
  lemma {:induction false} RunKeepsUnique(t: Tracking, allocBuff: Ptr, cs: seq<Call>)
    requires KeysUnique(t.records) && AllReturnUntracked(t, allocBuff, cs)
    ensures KeysUnique(Run(t, allocBuff, cs).records)
    decreases |cs|
  {
    if cs != [] {
      StepKeepsUnique(t, allocBuff, cs[0]);
      RunKeepsUnique(Step(t, allocBuff, cs[0]), allocBuff, cs[1..]);
    }
  }

  // ---------------------------------------------------------------- scenarios

  /** malloc(100) then free of the same block: one allocation counted, one
      record of size 100 in between, none at the end. */
  lemma MallocThenFree(allocBuff: Ptr, p: Ptr, now1: int, now2: int)
    requires p != NULL && p != allocBuff
    ensures var m := Malloc(Initial, 100, p, true, now1);
            var f := Free(m.state, allocBuff, p, now2).state;
            && m.state.overallNumAlloc == 1 && |m.state.records| == 1
            && Lookup(m.state.records, p) == Some(AllocInfo(100, now1))
            && f.overallNumAlloc == 1 && f.overallAllocSz == 100 && f.records == []
  {
    var m := Malloc(Initial, 100, p, true, now1);
    assert m.state.records == [(p, AllocInfo(100, now1))];
    assert FirstIndex(m.state.records, p) == 0;
    assert HasKey(m.state.records, p);
  }

  /** calloc(10, 4): 40 bytes counted, a record of size 4. */
  lemma CallocTenByFour(allocBuff: Ptr, p: Ptr, now: int)
    requires p != NULL
    ensures var c := Calloc(Initial, allocBuff, 10, 4, p, true, now);
            && c.state.overallAllocSz == 40
            && c.state.overallNumAlloc == 1
            && Lookup(c.state.records, p) == Some(AllocInfo(4, now))
  {
    var c := Calloc(Initial, allocBuff, 10, 4, p, true, now);
    assert c.state.records == [(p, AllocInfo(4, now))];
    assert FirstIndex(c.state.records, p) == 0;
  }
}
