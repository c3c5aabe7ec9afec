/** The allocation profiler of memprofiler.c as an object: its static
    globals are the fields of one Profiler, its internal routines and hooks
    are methods that update them, and each method is proved to leave the
    state that the corresponding function of ProfilerModel describes (the
    two counter routines and the calloc lookup as plain field updates).
    Repr() is what a profiler owns; methods only add fresh objects to it,
    so hook calls can be made one after another on one profiler.  What
    the real allocator answers (a block address or NULL, whether the
    bookkeeping node could be allocated) and the time are parameters. */
module MemProfiler {
  import opened AssocList
  import opened LinkedList
  import opened ProfilerModel
  import ProfilerProperties

  /** The nodes of a chain as a set of objects. */
  ghost function Objects(ns: seq<Node<AllocInfo>>): set<object>
  {
    set n: object | n in ns
  }

  /** Unlinking a node allocates nothing: the remaining nodes were all there. */
  lemma ObjectsRemoveAt(ns: seq<Node<AllocInfo>>, i: nat)
    ensures Objects(RemoveAt(ns, i)) <= Objects(ns)
  {
    if i < |ns| {
      var r := ns[..i] + ns[i + 1..];
      assert forall k :: 0 <= k < |r| ==> r[k] == if k < i then ns[k] else ns[k + 1];
      assert forall n :: n in r ==> n in ns;
    }
  }

  class Profiler {
    /** Address of the static alloc_buff handed out during calloc's lookup. */
    const allocBuff: Ptr
    /** The cell holding curr_alloc_list. */
    const currAllocList: ListHead<AllocInfo>

    var overallNumAlloc: nat
    var overallAllocSz: nat
    /** Whether orig_malloc, orig_calloc, orig_realloc, orig_free are set. */
    var mallocResolved: bool
    var callocResolved: bool
    var reallocResolved: bool
    var freeResolved: bool
    var noHook: bool
    /** print_stats' static time_last_printed. */
    var timeLastPrinted: int

    /** alloc_buff is a static array, so its address is never NULL. */
    ghost predicate Valid()
      reads this, currAllocList, currAllocList.nodes
    {
      allocBuff != NULL && currAllocList.Valid()
    }

    /** The objects the profiler owns: itself, the list's head cell and
        every node of the list. */
    ghost function Repr(): set<object>
      reads currAllocList
    {
      {this as object, currAllocList} + Objects(currAllocList.nodes)
    }

    /** The globals as a ProfilerModel state. */
    ghost function Abstract(): Tracking
      reads this, currAllocList, currAllocList.nodes
    {
      Tracking(overallNumAlloc, overallAllocSz, currAllocList.Contents(),
               mallocResolved, callocResolved, reallocResolved, freeResolved,
               noHook, timeLastPrinted)
    }

    /** The state at load time. */
    constructor (allocBuff: Ptr)
      requires allocBuff != NULL
      ensures Valid() && Abstract() == Initial && this.allocBuff == allocBuff
      ensures fresh(Repr())
    {
      this.allocBuff := allocBuff;
      currAllocList := new ListHead();
      overallNumAlloc := 0;
      overallAllocSz := 0;
      mallocResolved := false;
      callocResolved := false;
      reallocResolved := false;
      freeResolved := false;
      noHook := false;
      timeLastPrinted := 0;
    }

    // -------------------------------------------------------------- internal routines

    /** increment_overall_num_alloc: one more allocation counted; returns 0. */
    method IncrementOverallNumAlloc() returns (r: int)
      requires Valid()
      modifies this
      ensures fresh(Repr() - old(Repr()))
      ensures Repr() == old(Repr())
      ensures Valid() && r == 0
      ensures Abstract() == old(Abstract()).(overallNumAlloc := old(overallNumAlloc) + 1)
    {
      overallNumAlloc := overallNumAlloc + 1;
      r := 0;
    }

    /** add_overall_alloc_sz: `size` more bytes counted; returns 0. */
    method AddOverallAllocSz(size: nat) returns (r: int)
      requires Valid()
      modifies this
      ensures fresh(Repr() - old(Repr()))
      ensures Repr() == old(Repr())
      ensures Valid() && r == 0
      ensures Abstract() == old(Abstract()).(overallAllocSz := old(overallAllocSz) + size)
    {
      overallAllocSz := overallAllocSz + size;
      r := 0;
    }

    /** add_curr_alloc_list: a fresh node for `ptr` recording `size` and the
        time goes to the head of the list, unless the node cannot be
        allocated (`nodeOk` false). */
    method AddCurrAllocList(ptr: Ptr, size: nat, nodeOk: bool, now: int) returns (r: int)
      requires Valid()
      modifies currAllocList
      ensures fresh(Repr() - old(Repr()))
      ensures Valid()
      ensures Updated(Abstract(), r) == AddRecord(old(Abstract()), ptr, size, nodeOk, now)
      ensures nodeOk ==> currAllocList.first != null && fresh(currAllocList.first)
    {
      if !nodeOk {
        return -1;
      }
      var node := new Node(ptr, AllocInfo(size, now));
      ListInsert(currAllocList, node);
      r := 0;
      assert currAllocList.Contents() == [(ptr, AllocInfo(size, now))] + old(currAllocList.Contents());
    }

    /** del_curr_alloc_list: unlinks the record of `ptr`, or returns -1 when
        there is none. */
    method DelCurrAllocList(ptr: Ptr) returns (r: int)
      requires Valid()
      modifies currAllocList, currAllocList.nodes
      ensures fresh(Repr() - old(Repr()))
      ensures Repr() <= old(Repr())
      ensures Valid()
      ensures Updated(Abstract(), r) == DelRecord(old(Abstract()), ptr)
    {
      ghost var ns := currAllocList.nodes;
      var node := ListDelete(currAllocList, ptr);
      ObjectsRemoveAt(ns, FirstIndex(Entries(ns), ptr));
      if node == null {
        return -1;
      }
      r := 0;
    }

    /** print_stats: outside the rate limit, walks the list counting the
        records and summing their sizes, and reports them with the overall
        counters. */
    method PrintStats(force: bool, now: int) returns (report: Option<Report>)
      requires Valid()
      modifies this
      ensures fresh(Repr() - old(Repr()))
      ensures Repr() == old(Repr())
      ensures Valid()
      ensures Printed(Abstract(), report) == ProfilerModel.PrintStats(old(Abstract()), force, now)
    {
      if !force && now - timeLastPrinted < ReportInterval {
        return None;
      }
      timeLastPrinted := now;
      ghost var ns := currAllocList.nodes;
      ghost var records := Entries(ns);
      var current := currAllocList.first;
      var currNumAlloc: nat := 0;
      var currAllocSz: nat := 0;
      while current != null
        invariant currNumAlloc <= |ns|
        invariant current == if currNumAlloc < |ns| then ns[currNumAlloc] else null
        invariant currAllocSz == LiveBytes(records[..currNumAlloc])
        invariant Abstract() == old(Abstract()).(timeLastPrinted := now)
        decreases |ns| - currNumAlloc
      {
        var info := current.val;
        LiveBytesSnoc(records, currNumAlloc);
        currNumAlloc := currNumAlloc + 1;
        currAllocSz := currAllocSz + info.size;
        current := current.next;
      }
      assert records[..currNumAlloc] == records;
      report := Some(Report(now, overallNumAlloc, overallAllocSz, currNumAlloc, currAllocSz));
    }

    /** The bookkeeping that malloc and calloc share for a block `ptr` they
        hand out: count it and `bytes`, record it with `size`, and report
        if due. */
    method TrackBlock(ptr: Ptr, bytes: nat, size: nat, nodeOk: bool, now: int) returns (report: Option<Report>)
      requires Valid()
      modifies this, currAllocList
      ensures fresh(Repr() - old(Repr()))
      ensures Valid()
      ensures HookResult(Abstract(), ptr, report) == Track(old(Abstract()), ptr, bytes, size, nodeOk, now)
    {
      var _ := IncrementOverallNumAlloc();
      var _ := AddOverallAllocSz(bytes);
      var _ := AddCurrAllocList(ptr, size, nodeOk, now);
      report := PrintStats(false, now);
    }

    // -------------------------------------------------------------- hooks

    /** malloc: `realRet` is what the real malloc returned. */
    method Malloc(size: nat, realRet: Ptr, nodeOk: bool, now: int) returns (ret: Ptr, report: Option<Report>)
      requires Valid()
      modifies this, currAllocList, currAllocList.nodes
      ensures fresh(Repr() - old(Repr()))
      ensures Valid()
      ensures HookResult(Abstract(), ret, report) == ProfilerModel.Malloc(old(Abstract()), size, realRet, nodeOk, now)
    {
      ghost var t0 := Abstract();
      if !mallocResolved {
        mallocResolved := true;
      }
      ghost var t1 := Abstract();
      assert t1 == t0.(mallocResolved := true);
      ret := realRet;
      report := None;
      if ret != NULL {
        report := TrackBlock(ret, size, size, nodeOk, now);
      }
    }

    /** calloc: called back with no_hook set while the real calloc is still
        unresolved, it hands out alloc_buff.  Otherwise it resolves the real
        calloc first (the symbol lookup may itself make the calloc calls
        `lookupCalls`), then counts nmemb * size bytes and records `size`. */
    method Calloc(nmemb: nat, size: nat, realRet: Ptr, nodeOk: bool, now: int, lookupCalls: seq<(nat, nat)>)
      returns (ret: Ptr, report: Option<Report>)
      requires Valid()
      modifies this, currAllocList, currAllocList.nodes
      ensures fresh(Repr() - old(Repr()))
      ensures Valid()
      ensures HookResult(Abstract(), ret, report)
              == ProfilerModel.Calloc(old(Abstract()), allocBuff, nmemb, size, realRet, nodeOk, now)
      ensures old(noHook && !callocResolved) ==> unchanged(this, currAllocList)
      decreases if noHook && !callocResolved then 0 else 2
    {
      if noHook && !callocResolved {
        return allocBuff, None;
      }
      ghost var t0 := Abstract();
      if !callocResolved {
        var _ := ResolveCalloc(lookupCalls);
      }
      ghost var t1 := Abstract();
      assert t1 == t0.(callocResolved := true);
      ret := realRet;
      report := None;
      if ret != NULL {
        report := TrackBlock(ret, nmemb * size, size, nodeOk, now);
      }
    }

    /** The lookup of the real calloc with no_hook raised: every calloc the
        lookup makes (`calls`) receives alloc_buff, and afterwards the real
        calloc is resolved and no_hook lowered again. */
    method ResolveCalloc(calls: seq<(nat, nat)>) returns (given: seq<Ptr>)
      requires Valid() && !noHook && !callocResolved
      modifies this, currAllocList, currAllocList.nodes
      ensures fresh(Repr() - old(Repr()))
      ensures Valid() && Abstract() == old(Abstract()).(callocResolved := true)
      ensures |given| == |calls| && forall k :: 0 <= k < |given| ==> given[k] == allocBuff
      decreases 1
    {
      noHook := true;
      given := [];
      var k := 0;
      while k < |calls|
        invariant k <= |calls|
        invariant Valid() && noHook && !callocResolved
        invariant Abstract() == old(Abstract()).(noHook := true)
        invariant |given| == k && forall j :: 0 <= j < k ==> given[j] == allocBuff
        invariant unchanged(currAllocList)
      {
        var p, _ := Calloc(calls[k].0, calls[k].1, NULL, false, 0, []);
        given := given + [p];
        k := k + 1;
      }
      callocResolved := true;
      noHook := false;
    }

    /** The `if (ptr)` block of realloc: the old block's record is looked up
        (the size found is never used) and then deleted. */
    method ForgetBlock(ptr: Ptr)
      requires Valid()
      modifies currAllocList, currAllocList.nodes
      ensures fresh(Repr() - old(Repr()))
      ensures Repr() <= old(Repr())
      ensures Valid()
      ensures Abstract() == DelRecord(old(Abstract()), ptr).state
    {
      var _ := ListFind(currAllocList.first, ptr, currAllocList.nodes);
      var _ := DelCurrAllocList(ptr);
    }

    /** realloc: the old block's record is looked up and deleted whatever the
        real realloc did, and a record for the returned block is added. */
    method Realloc(ptr: Ptr, size: nat, realRet: Ptr, nodeOk: bool, now: int) returns (ret: Ptr, report: Option<Report>)
      requires Valid()
      modifies this, currAllocList, currAllocList.nodes
      ensures fresh(Repr() - old(Repr()))
      ensures Valid()
      ensures HookResult(Abstract(), ret, report) == ProfilerModel.Realloc(old(Abstract()), ptr, size, realRet, nodeOk, now)
    {
      if !reallocResolved {
        reallocResolved := true;
      }
      ghost var t1 := old(Abstract()).(reallocResolved := true);
      ret := realRet;
      if ptr != NULL {
        ForgetBlock(ptr);
      }
      ghost var t2 := if ptr != NULL then DelRecord(t1, ptr).state else t1;
      assert Abstract() == t2;
      report := RecordReallocated(ptr, ret, size, nodeOk, now);
    }

    /** The rest of realloc once the old record is gone: the returned block
        `ret` is recorded, and a report follows if either pointer is non-null. */
    method RecordReallocated(ptr: Ptr, ret: Ptr, size: nat, nodeOk: bool, now: int) returns (report: Option<Report>)
      requires Valid()
      modifies this, currAllocList
      ensures fresh(Repr() - old(Repr()))
      ensures Valid()
      ensures var t := if ret != NULL then AddRecord(old(Abstract()), ret, size, nodeOk, now).state else old(Abstract());
              Printed(Abstract(), report)
              == if ptr != NULL || ret != NULL then ProfilerModel.PrintStats(t, false, now) else Printed(t, None)
    {
      if ret != NULL {
        var _ := AddCurrAllocList(ret, size, nodeOk, now);
      }
      report := None;
      if ptr != NULL || ret != NULL {
        report := PrintStats(false, now);
      }
    }

    /** free: alloc_buff is never released; any other block loses its record
        (NULL has none) and may trigger a report. */
    method Free(ptr: Ptr, now: int) returns (report: Option<Report>)
      requires Valid()
      modifies this, currAllocList, currAllocList.nodes
      ensures fresh(Repr() - old(Repr()))
      ensures Valid()
      ensures Printed(Abstract(), report) == ProfilerModel.Free(old(Abstract()), allocBuff, ptr, now)
    {
      ghost var t0 := Abstract();
      if !freeResolved {
        freeResolved := true;
      }
      ghost var t1 := t0.(freeResolved := true);
      assert Abstract() == t1;
      report := None;
      if ptr != allocBuff {
        if ptr != NULL {
          var _ := DelCurrAllocList(ptr);
        }
        ghost var t2 := if ptr != NULL then DelRecord(t1, ptr).state else t1;
        assert Abstract() == t2;
        report := PrintStats(false, now);
      }
    }

    /** fini: the forced report when the library is unloaded. */
    method Fini(now: int) returns (report: Option<Report>)
      requires Valid()
      modifies this
      ensures fresh(Repr() - old(Repr()))
      ensures Valid()
      ensures Printed(Abstract(), report) == ProfilerModel.Fini(old(Abstract()), now)
    {
      report := PrintStats(true, now);
    }

    // -------------------------------------------------------------- sequences of calls

    /** One hook call `c` on this profiler, in the terms of ProfilerModel.Step
        (the lookup of the real calloc makes no calloc calls of its own). */
    method Apply(c: Call)
      requires Valid()
      modifies this, currAllocList, currAllocList.nodes
      ensures fresh(Repr() - old(Repr()))
      ensures Valid()
      ensures Abstract() == Step(old(Abstract()), allocBuff, c)
    {
      match c
      case MallocCall(size, realRet, nodeOk, now) =>
        var _, _ := Malloc(size, realRet, nodeOk, now);
      case CallocCall(nmemb, size, realRet, nodeOk, now) =>
        var _, _ := Calloc(nmemb, size, realRet, nodeOk, now, []);
      case ReallocCall(ptr, size, realRet, nodeOk, now) =>
        var _, _ := Realloc(ptr, size, realRet, nodeOk, now);
      case FreeCall(ptr, now) =>
        var _ := Free(ptr, now);
      case FiniCall(now) =>
        var _ := Fini(now);
    }
  }

  /** The hook calls `cs`, made one after another on the same profiler
      object, end in the state ProfilerModel.Run gives for them. */
  method Replay(p: Profiler, cs: seq<Call>)
    requires p.Valid()
    modifies p.Repr()
    ensures p.Valid() && fresh(p.Repr() - old(p.Repr()))
    ensures p.Abstract() == Run(old(p.Abstract()), p.allocBuff, cs)
    ensures p.overallNumAlloc >= old(p.overallNumAlloc) && p.overallAllocSz >= old(p.overallAllocSz)
  {
    var k := 0;
    while k < |cs|
      invariant k <= |cs|
      invariant p.Valid() && fresh(p.Repr() - old(p.Repr()))
      invariant Run(p.Abstract(), p.allocBuff, cs[k..]) == Run(old(p.Abstract()), p.allocBuff, cs)
    {
      assert cs[k..][1..] == cs[k + 1..];
      p.Apply(cs[k]);
      k := k + 1;
    }
    ProfilerProperties.RunCountersMonotone(old(p.Abstract()), p.allocBuff, cs);
  }
}
