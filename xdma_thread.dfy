/**
 * Thread bookkeeping of the XDMA driver: the completion-status threads that
 * engines are assigned to, the TSN thread of an engine with its ring of
 * buffer descriptors, and the page span and scatter-gather segmentation of
 * a user buffer handed to a transfer.
 */
module XdmaThread {
  import opened Common

  // Linux error numbers (asm-generic/errno-base.h).
  const ENOMEM: int := 12
  const EFAULT: int := 14
  const EINVAL: int := 22

  /** An engine's entry on a thread's work list. */
  type EngineId = nat

  /** The `xdma_engine` fields the thread code reads and writes. */
  class Engine {
    const id: EngineId
    /** `cmplthp`: the completion thread serving the engine, by index. */
    var cmplthp: Option<nat>
    var intrWorkCpu: int
    var tsnthp: TsnKthread?

    constructor(id: EngineId)
      ensures this.id == id && cmplthp == None && tsnthp == null
    {
      this.id := id;
      cmplthp := None;
      intrWorkCpu := 0;
      tsnthp := null;
    }
  }

  // ---------------------------------------------------------------------
  // Completion-status threads
  // ---------------------------------------------------------------------

  /** The first `i >= from` whose thread has no work, or `|w|` when there is none. */
  function FirstIdle(w: seq<nat>, from: nat): (r: nat)
    requires from <= |w|
    ensures from <= r <= |w|
    ensures r < |w| ==> w[r] == 0
    ensures forall i :: from <= i < r ==> w[i] != 0
    decreases |w| - from
  {
    if from == |w| then |w| else if w[from] == 0 then from else FirstIdle(w, from + 1)
  }

  /** The last `i` in `1..n-1` whose count is below `v`, or 0 when there is none. */
  function LastBelow(w: seq<nat>, n: nat, v: nat): (r: nat)
    requires 1 <= n <= |w|
    ensures r < n
    ensures r > 0 ==> w[r] < v && forall i :: r < i < n ==> w[i] >= v
    ensures r == 0 ==> forall i :: 1 <= i < n ==> w[i] >= v
    decreases n
  {
    if n == 1 then 0 else if w[n - 1] < v then n - 1 else LastBelow(w, n - 1, v)
  }

  /**
   * The thread `xdma_thread_add_work` picks for work counts `w`: the first
   * idle thread after thread 0; failing that the last thread whose count is
   * below thread 0's (the value compared against is never updated); failing
   * that thread 0.
   */
  function ChosenThread(w: seq<nat>): (r: nat)
    requires |w| >= 1
    ensures r < |w|
  {
    var z := FirstIdle(w, 1);
    if z < |w| then z else LastBelow(w, |w|, w[0])
  }

  /** An idle thread after thread 0, when there is one, is chosen: the first such. */
  lemma ChosenPrefersIdle(w: seq<nat>, i: nat)
    requires 1 <= i < |w| && w[i] == 0
    ensures w[ChosenThread(w)] == 0 && 1 <= ChosenThread(w) <= i
    ensures forall j :: 1 <= j < ChosenThread(w) ==> w[j] != 0
  {
    assert FirstIdle(w, 1) <= i;
  }

  /** The chosen thread never has more work than thread 0, and thread 0 is chosen only when nobody has less. */
  lemma ChosenNotAboveFirst(w: seq<nat>)
    requires |w| >= 1
    ensures w[ChosenThread(w)] <= w[0]
    ensures ChosenThread(w) == 0 ==> forall i :: 0 <= i < |w| ==> w[0] <= w[i]
  {
  }

  /** Because the value compared against stays thread 0's, the chosen thread need not be a least loaded one. */
  lemma ChosenNotLeastLoaded()
    ensures ChosenThread([5, 3, 4]) == 2
    ensures [5, 3, 4][1] < [5, 3, 4][2]
  {
    assert FirstIdle([5, 3, 4], 1) == 3;
  }

  /** `list_del`: the first occurrence of `x` taken out of `s`. */
  function Remove(s: seq<EngineId>, x: EngineId): (r: seq<EngineId>)
    ensures x in s ==> |r| == |s| - 1 && multiset(r) == multiset(s) - multiset{x}
    ensures x !in s ==> r == s
  {
    if |s| == 0 then []
    else
      assert s == [s[0]] + s[1..];
      if s[0] == x then s[1..] else [s[0]] + Remove(s[1..], x)
  }

  /** Taking out the engine just added gives the list back. */
  lemma {:induction false} RemoveAppended(s: seq<EngineId>, x: EngineId)
    requires x !in s
    ensures Remove(s + [x], x) == s
  {
    if |s| > 0 {
      assert (s + [x])[1..] == s[1..] + [x];
      RemoveAppended(s[1..], x);
    }
  }

  /**
   * The completion-status threads (`cs_threads`, `thread_cnt`): a work count
   * and a work list per thread.
   */
  class CmplThreads {
    var threadCnt: nat
    var workCnt: seq<nat>
    var workLists: seq<seq<EngineId>>

    /** Every thread's count is the length of its work list. */
    ghost predicate Valid()
      reads this
    {
      |workCnt| == threadCnt && |workLists| == threadCnt &&
      forall i :: 0 <= i < threadCnt ==> workCnt[i] == |workLists[i]|
    }

    constructor()
      ensures Valid() && threadCnt == 0
    {
      threadCnt := 0;
      workCnt := [];
      workLists := [];
    }

    /**
     * `xdma_thread_add_work(engine)`: appends the engine to the chosen
     * thread's list, counts it there and records the thread in the engine.
     * With no thread the C code dereferences a null thread array.
     */
    method AddWork(e: Engine) returns (idx: nat)
      requires Valid() && threadCnt >= 1
      modifies this, e
      ensures Valid() && threadCnt == old(threadCnt)
      ensures idx == ChosenThread(old(workCnt))
      ensures workCnt == old(workCnt)[idx := old(workCnt)[idx] + 1]
      ensures workLists == old(workLists)[idx := old(workLists)[idx] + [e.id]]
      ensures e.cmplthp == Some(idx) && e.intrWorkCpu == idx && e.tsnthp == old(e.tsnthp)
    {
      var v := 0;
      idx := threadCnt;
      var i := 0;
      while i < threadCnt
        invariant 0 <= i <= threadCnt
        invariant i == 0 ==> idx == threadCnt
        invariant i >= 1 ==> v == workCnt[0] && FirstIdle(workCnt, 1) >= i && idx == LastBelow(workCnt, i, v)
      {
        if idx == threadCnt {
          v := workCnt[i];
          idx := i;
        } else if workCnt[i] == 0 {
          idx := i;
          break;
        } else if workCnt[i] < v {
          idx := i;
        }
        i := i + 1;
      }
      workLists := workLists[idx := workLists[idx] + [e.id]];
      e.intrWorkCpu := idx;
      workCnt := workCnt[idx := workCnt[idx] + 1];
      e.cmplthp := Some(idx);
    }

    /**
     * `xdma_thread_remove_work(engine)`: clears the engine's thread and, if
     * it had one, takes it off that thread's list and uncounts it.
     */
    method RemoveWork(e: Engine)
      requires Valid()
      requires e.cmplthp.Some? ==> e.cmplthp.value < threadCnt && e.id in workLists[e.cmplthp.value]
      modifies this, e
      ensures Valid() && threadCnt == old(threadCnt)
      ensures e.cmplthp == None && e.intrWorkCpu == old(e.intrWorkCpu) && e.tsnthp == old(e.tsnthp)
      ensures old(e.cmplthp) == None ==> workCnt == old(workCnt) && workLists == old(workLists)
      ensures old(e.cmplthp).Some? ==>
                var t := old(e.cmplthp).value;
                workCnt == old(workCnt)[t := old(workCnt)[t] - 1] &&
                workLists == old(workLists)[t := Remove(old(workLists)[t], e.id)]
    {
      var t := e.cmplthp;
      e.cmplthp := None;
      if t.Some? {
        workLists := workLists[t.value := Remove(workLists[t.value], e.id)];
        workCnt := workCnt[t.value := workCnt[t.value] - 1];
      }
    }

    /**
     * `xdma_threads_create(num_threads)`: nothing to do when threads exist;
     * otherwise one thread per online CPU (`starts` holds what starting the
     * thread for each online CPU returns) until `num_threads` run. A failed
     * start drops them all and returns its code.
     */
    method ThreadsCreate(numThreads: nat, allocOk: bool, starts: seq<int>) returns (rc: int)
      requires Valid()
      modifies this
      ensures Valid()
      ensures old(threadCnt) != 0 ==> rc == 0 && threadCnt == old(threadCnt) && workCnt == old(workCnt) && workLists == old(workLists)
      ensures old(threadCnt) == 0 && !allocOk ==> rc == -ENOMEM && threadCnt == 0
      ensures old(threadCnt) == 0 && allocOk ==>
                var m := Min(numThreads, |starts|);
                var f := FirstFailure(starts, m);
                if f < m then rc == starts[f] && threadCnt == 0
                else rc == 0 && threadCnt == m && workCnt == Repeat(0, m) && workLists == Repeat([], m)
    {
      if threadCnt != 0 {
        return 0;
      }
      if !allocOk {
        return -ENOMEM;
      }
      var k := 0;
      ghost var m := Min(numThreads, |starts|);
      while k < |starts| && threadCnt < numThreads
        invariant Valid() && 0 <= k <= m && threadCnt == k
        invariant FirstFailure(starts, m) >= k
        invariant workCnt == Repeat(0, k) && workLists == Repeat([], k)
      {
        if starts[k] < 0 {
          threadCnt, workCnt, workLists := 0, [], [];
          return starts[k];
        }
        threadCnt := threadCnt + 1;
        workCnt := workCnt + [0];
        workLists := workLists + [[]];
        k := k + 1;
      }
      rc := 0;
    }

    /** `xdma_threads_destroy`: stops every thread and leaves none. */
    method ThreadsDestroy()
      requires Valid()
      modifies this
      ensures Valid() && threadCnt == 0
    {
      if threadCnt == 0 {
        return;
      }
      threadCnt, workCnt, workLists := 0, [], [];
    }
  }

  /** The index of the first negative start result among the first `m`, or `m`. */
  function FirstFailure(starts: seq<int>, m: nat): (r: nat)
    requires m <= |starts|
    ensures r <= m
    ensures r < m ==> starts[r] < 0
    ensures forall j :: 0 <= j < r ==> starts[j] >= 0
  {
    if m == 0 then 0
    else
      var r := FirstFailure(starts, m - 1);
      if r < m - 1 then r else if starts[m - 1] < 0 then m - 1 else m
  }

  /**
   * The number of threads the loop of `xdma_threads_create` starts as
   * written, when every start succeeds: the loop stops only when the count
   * reaches `num_threads` after an increment, which never happens for 0.
   */
  function CreatedAsWritten(numThreads: nat, cpus: nat): (r: nat)
    ensures numThreads >= 1 ==> r == Min(numThreads, cpus)
  {
    if numThreads == 0 then cpus else Min(numThreads, cpus)
  }

  /** Asked for no threads on a machine with one CPU, the loop starts one, in a zero-length array. */
  lemma ZeroThreadsOverrun()
    ensures CreatedAsWritten(0, 1) == 1 > 0
  {
  }

  // ---------------------------------------------------------------------
  // The TSN thread and its buffer-descriptor ring
  // ---------------------------------------------------------------------

  /** A buffer descriptor; `next` is the index of the descriptor it links to. */
  datatype Bd = Bd(next: nat, status: int, id: int, buffer: nat, userAddress: nat)

  /** The zero-filled descriptor `kzalloc` hands out. */
  const ZERO_BD := Bd(0, 0, 0, 0, 0)

  /** The ring `tsn_thread_init` links: each descriptor to the following one, the last back to the first. */
  function RingOf(n: nat): (r: seq<Bd>)
    ensures |r| == n
  {
    seq(n, (i: nat) => Bd(if i + 1 < n then i + 1 else 0, 0, i, 0, 0))
  }

  /** The index reached from `i` after following `next` `k` times. */
  function Walk(ring: seq<Bd>, i: nat, k: nat): nat
    decreases k
  {
    if k == 0 || i >= |ring| then i else Walk(ring, ring[i].next, k - 1)
  }

  /** Following the links `k` times from descriptor `i` lands on `(i + k) mod n`. */
  lemma {:induction false} RingWalk(n: nat, i: nat, k: nat)
    requires i < n
    ensures Walk(RingOf(n), i, k) == (i + k) % n
    decreases k
  {
    if k > 0 {
      var j := RingOf(n)[i].next;
      RingWalk(n, j, k - 1);
      RingAdvance(n, i, k);
    }
  }

  lemma RingAdvance(n: nat, i: nat, k: nat)
    requires i < n && k >= 1
    ensures ((if i + 1 < n then i + 1 else 0) + (k - 1)) % n == (i + k) % n
  {
    if i + 1 == n {
      var q, r := (k - 1) / n, (k - 1) % n;
      DivModUnique(i + k, n, q + 1, r);
    }
  }

  /** The ring closes after `n` steps, and the descriptor `k` steps on from the first is number `k`. */
  lemma RingCloses(n: nat, i: nat, k: nat)
    requires i < n && k < n
    ensures Walk(RingOf(n), i, n) == i
    ensures Walk(RingOf(n), 0, k) == k && RingOf(n)[k].id == k
  {
    RingWalk(n, i, n);
    DivModUnique(i + n, n, 1, i);
    RingWalk(n, 0, k);
    DivModUnique(k, n, 0, k);
  }

  /** The TSN thread of an engine (`tsn_kthread`) with its descriptor ring (`BdRing`). */
  class TsnKthread {
    var ring: array<Bd>
    var freeCnt: int
    var allCnt: int
    var bufferCount: int
    var running: bool
    /** The private copy of the device the running thread owns, by handle. */
    var xdev: Option<nat>

    /** At most `AllCnt` descriptors are in use, and the thread owns a device copy exactly while it runs. */
    ghost predicate Valid()
      reads this
    {
      ring.Length == allCnt && 0 <= freeCnt <= allCnt && (running <==> xdev.Some?)
    }

    constructor(ring: array<Bd>, n: int)
      requires ring.Length == n
      ensures Valid() && this.ring == ring && freeCnt == 0 && allCnt == n && bufferCount == n
      ensures !running && xdev == None
    {
      this.ring := ring;
      freeCnt := 0;
      allCnt := n;
      bufferCount := n;
      running := false;
      xdev := None;
    }
  }

  /** Links `bdp` into the ring of `tsn_thread_init`. */
  method LinkRing(bdp: array<Bd>)
    requires bdp.Length >= 1
    requires forall i :: 0 <= i < bdp.Length ==> bdp[i] == ZERO_BD
    modifies bdp
    ensures bdp[..] == RingOf(bdp.Length)
  {
    var n := bdp.Length;
    var idx := 0;
    while idx < n - 1
      invariant 0 <= idx <= n - 1
      invariant forall i :: 0 <= i < idx ==> bdp[i] == RingOf(n)[i]
      invariant forall i :: idx <= i < n ==> bdp[i] == ZERO_BD
    {
      bdp[idx] := bdp[idx].(next := idx + 1, status := 0, id := idx);
      idx := idx + 1;
    }
    bdp[idx] := bdp[idx].(next := 0, status := 0, id := idx);
    assert forall i :: 0 <= i < n ==> bdp[i] == RingOf(n)[i];
    assert bdp[..] == RingOf(n);
  }

  /**
   * `tsn_thread_init(engine, BufferCount)`: refuses an engine that already
   * has a TSN thread; otherwise builds the ring of `BufferCount` zeroed
   * descriptors and a stopped thread with no descriptor in use.
   */
  method TsnThreadInit(engine: Engine, n: int, bdAllocOk: bool, threadAllocOk: bool) returns (rc: int)
    requires n >= 1
    modifies engine
    ensures engine.cmplthp == old(engine.cmplthp)
    ensures old(engine.tsnthp) != null ==> rc == -EINVAL && engine.tsnthp == old(engine.tsnthp)
    ensures old(engine.tsnthp) == null && !(bdAllocOk && threadAllocOk) ==> rc == -ENOMEM && engine.tsnthp == null
    ensures old(engine.tsnthp) == null && bdAllocOk && threadAllocOk ==>
              rc == 0 && engine.tsnthp != null && fresh(engine.tsnthp) && fresh(engine.tsnthp.ring)
              && engine.tsnthp.Valid() && engine.tsnthp.ring[..] == RingOf(n)
              && engine.tsnthp.freeCnt == 0 && engine.tsnthp.allCnt == n && !engine.tsnthp.running
  {
    if engine.tsnthp != null {
      return -EINVAL;
    }
    if !bdAllocOk {
      return -ENOMEM;
    }
    var bdp := new Bd[n](_ => ZERO_BD);
    LinkRing(bdp);
    if !threadAllocOk {
      return -ENOMEM;
    }
    var t := new TsnKthread(bdp, n);
    engine.tsnthp := t;
    rc := 0;
  }

  /**
   * `tsn_bd_set_buffer_address`: refuses once every descriptor is in use,
   * and (corrected) a descriptor number outside the ring; otherwise stores
   * the buffer and user addresses in that descriptor and counts it.
   */
  method TsnBdSetBufferAddress(t: TsnKthread, id: int, buffer: nat, userAddress: nat) returns (rc: int)
    requires t.Valid()
    modifies t, t.ring
    ensures t.Valid() && t.ring == old(t.ring) && t.allCnt == old(t.allCnt)
    ensures t.running == old(t.running) && t.xdev == old(t.xdev)
    ensures rc == 0 <==> old(t.freeCnt) < t.allCnt && 0 <= id < t.allCnt
    ensures rc != 0 ==> rc == -EINVAL && t.freeCnt == old(t.freeCnt) && t.ring[..] == old(t.ring[..])
    ensures rc == 0 ==> t.freeCnt == old(t.freeCnt) + 1
                        && t.ring[..] == old(t.ring[..])[id := old(t.ring[id]).(buffer := buffer, userAddress := userAddress)]
  {
    if t.freeCnt >= t.allCnt {
      return -EINVAL;
    }
    if !(0 <= id < t.ring.Length) {
      return -EINVAL;
    }
    t.ring[id] := t.ring[id].(buffer := buffer, userAddress := userAddress);
    t.freeCnt := t.freeCnt + 1;
    rc := 0;
  }

  /** The only check `tsn_bd_set_buffer_address` makes before storing at descriptor `id`, as written. */
  predicate BdSetAcceptsAsWritten(freeCnt: int, allCnt: int, id: int)
  {
    freeCnt < allCnt
  }

  /** As written, a store to descriptor `AllCnt`, one past the ring, is accepted. */
  lemma BdSetAcceptsOutsideRing()
    ensures BdSetAcceptsAsWritten(0, 1, 1) && !(0 <= 1 < 1)
  {
  }

  /**
   * `tsn_bd_get_buffer_address`: the stored buffer and user addresses of
   * descriptor `id`, and (corrected) -EINVAL for a number outside the ring;
   * `copyRc` is what copying the answer back to the caller returns.
   */
  method TsnBdGetBufferAddress(t: TsnKthread, id: int, copyRc: int) returns (rc: int, buffer: nat, userAddress: nat)
    requires t.Valid()
    ensures !(0 <= id < t.allCnt) ==> rc == -EINVAL
    ensures 0 <= id < t.allCnt ==> rc == copyRc && buffer == t.ring[id].buffer && userAddress == t.ring[id].userAddress
  {
    if !(0 <= id < t.ring.Length) {
      return -EINVAL, 0, 0;
    }
    buffer := t.ring[id].buffer;
    userAddress := t.ring[id].userAddress;
    rc := copyRc;
  }

  /** The descriptors `tsn_bd_get_buffer_address` reads, as written: any number at all. */
  predicate BdGetReadsAsWritten(allCnt: int, id: int)
  {
    true
  }

  /** As written, the read of descriptor -1 goes ahead. */
  lemma BdGetReadsOutsideRing()
    ensures BdGetReadsAsWritten(1, -1) && !(0 <= -1 < 1)
  {
  }

  /** A get after a successful set of descriptor `id` returns the pair that was stored. */
  method BdSetThenGet(t: TsnKthread, id: int, buffer: nat, userAddress: nat, copyRc: int)
    returns (setRc: int, getRc: int, buffer': nat, userAddress': nat)
    requires t.Valid()
    modifies t, t.ring
    ensures t.Valid() && t.freeCnt <= t.allCnt
    ensures setRc == 0 ==> getRc == copyRc && buffer' == buffer && userAddress' == userAddress
  {
    setRc := TsnBdSetBufferAddress(t, id, buffer, userAddress);
    getRc, buffer', userAddress' := TsnBdGetBufferAddress(t, id, copyRc);
  }

  /**
   * `tsn_thread_start(file, engine)`: -EINVAL without a TSN thread and 0
   * with no change when it already runs; otherwise the device copy and PCI
   * device are allocated (`xdevOk`, `pdevOk`) and the kernel thread is
   * started (`threadRc`, negative on failure); only a started thread runs
   * and owns the copy.
   */
  method TsnThreadStart(engine: Engine, xdevOk: bool, xdevHandle: nat, pdevOk: bool, threadRc: int) returns (rc: int)
    requires engine.tsnthp != null ==> engine.tsnthp.Valid()
    modifies engine.tsnthp
    ensures engine.tsnthp != null ==> engine.tsnthp.Valid() && engine.tsnthp.ring == old(engine.tsnthp.ring)
                                      && engine.tsnthp.freeCnt == old(engine.tsnthp.freeCnt) && engine.tsnthp.allCnt == old(engine.tsnthp.allCnt)
    ensures engine.tsnthp == null ==> rc == -EINVAL
    ensures engine.tsnthp != null && old(engine.tsnthp.running) ==> rc == 0 && engine.tsnthp.running && engine.tsnthp.xdev == old(engine.tsnthp.xdev)
    ensures engine.tsnthp != null && !old(engine.tsnthp.running) ==>
              if !xdevOk || !pdevOk then rc == -ENOMEM && !engine.tsnthp.running
              else if threadRc < 0 then rc == threadRc && !engine.tsnthp.running
              else rc == 0 && engine.tsnthp.running && engine.tsnthp.xdev == Some(xdevHandle)
  {
    var t := engine.tsnthp;
    if t == null {
      return -EINVAL;
    }
    if t.running {
      return 0;
    }
    if !xdevOk || !pdevOk {
      return -ENOMEM;
    }
    if threadRc < 0 {
      t.running := false;
      return threadRc;
    }
    t.xdev := Some(xdevHandle);
    t.running := true;
    rc := 0;
  }

  /**
   * `tsn_thread_stop(engine)`: frees the device copy whenever there is one,
   * before looking at the running flag; a running thread is then stopped
   * and drops the copy. Returns the copy handed to `kfree`.
   */
  method TsnThreadStop(engine: Engine) returns (freed: Option<nat>)
    requires engine.tsnthp != null ==> engine.tsnthp.Valid()
    modifies engine.tsnthp
    ensures engine.tsnthp == null ==> freed == None
    ensures engine.tsnthp != null ==>
              engine.tsnthp.Valid() && freed == old(engine.tsnthp.xdev)
              && !engine.tsnthp.running && engine.tsnthp.xdev == None
              && engine.tsnthp.ring == old(engine.tsnthp.ring) && engine.tsnthp.freeCnt == old(engine.tsnthp.freeCnt)
              && engine.tsnthp.allCnt == old(engine.tsnthp.allCnt)
    ensures freed.Some? ==> old(engine.tsnthp.running)
  {
    var t := engine.tsnthp;
    if t == null {
      return None;
    }
    freed := t.xdev;
    if !t.running {
      return;
    }
    t.running := false;
    t.xdev := None;
  }

  /**
   * `tsn_thread_exit(engine)`: stops a running thread, frees its device
   * copy and its ring, and detaches the thread from the engine.
   */
  method TsnThreadExit(engine: Engine) returns (freed: Option<nat>)
    requires engine.tsnthp != null ==> engine.tsnthp.Valid()
    modifies engine, engine.tsnthp
    ensures engine.tsnthp == null && engine.cmplthp == old(engine.cmplthp)
    ensures freed == (if old(engine.tsnthp) == null then None else old(engine.tsnthp.xdev))
  {
    var t := engine.tsnthp;
    if t == null {
      return None;
    }
    if t.running {
      t.running := false;
    }
    freed := t.xdev;
    engine.tsnthp := null;
  }

  // ---------------------------------------------------------------------
  // Page span and scatter-gather segmentation of a user buffer
  // ---------------------------------------------------------------------

  /** The page size of the target (x86-64); `PAGE_MASK` clears the low `PAGE_SHIFT` bits. */
  const PAGE_SHIFT: nat := 12
  const PAGE_SIZE: nat := 4096

  /**
   * `pages_nr`: the pages the bytes `buf .. buf + len - 1` touch, computed in
   * `unsigned long` (the subtraction of `buf & PAGE_MASK` undoes the part of
   * the sum above the page offset) and stored in an `unsigned int`.
   */
  function PagesNr(buf: u64, len: u64): (r: u32)
  {
    U32(U64(buf % PAGE_SIZE + len + PAGE_SIZE - 1) / PAGE_SIZE)
  }

  /** `m` pages are exactly enough for the bytes from page offset `buf mod PAGE_SIZE` on. */
  predicate ExactSpan(buf: nat, len: nat, m: nat)
  {
    m >= 1 && (m - 1) * PAGE_SIZE < buf % PAGE_SIZE + len <= m * PAGE_SIZE
  }

  /**
   * Without wrap-around `pages_nr` is the exact span: `ceil((offset + len) /
   * PAGE_SIZE)`, and zero only for an empty transfer that starts on a page
   * boundary.
   */
  lemma PagesNrSpan(buf: u64, len: u64)
    requires buf % PAGE_SIZE + len + PAGE_SIZE - 1 < TWO_64
    requires (buf % PAGE_SIZE + len + PAGE_SIZE - 1) / PAGE_SIZE < TWO_32
    ensures PagesNr(buf, len) == 0 <==> buf % PAGE_SIZE + len == 0
    ensures buf % PAGE_SIZE + len > 0 ==> ExactSpan(buf, len, PagesNr(buf, len))
  {
    var x := buf % PAGE_SIZE + len + PAGE_SIZE - 1;
    var q := x / PAGE_SIZE;
    assert PagesNr(buf, len) == q;
    assert q * PAGE_SIZE <= x < q * PAGE_SIZE + PAGE_SIZE;
  }

  /** One scatter-gather entry: `length` bytes of page `page` from byte `offset` of it. */
  datatype SgEntry = SgEntry(page: nat, length: nat, offset: nat)

  /** The bytes a list of entries maps. */
  function Total(es: seq<SgEntry>): nat
  {
    if |es| == 0 then 0 else Total(es[..|es| - 1]) + es[|es| - 1].length
  }

  lemma {:induction false} TotalAppend(es: seq<SgEntry>, e: SgEntry)
    ensures Total(es + [e]) == Total(es) + e.length
  {
    assert (es + [e])[..|es|] == es;
  }

  lemma {:induction false} TotalPrepend(e: SgEntry, es: seq<SgEntry>)
    ensures Total([e] + es) == e.length + Total(es)
    decreases |es|
  {
    if |es| > 0 {
      var init := es[..|es| - 1];
      assert ([e] + es)[..|es|] == [e] + init;
      TotalPrepend(e, init);
    } else {
      assert [e] + es == [e];
      assert [e][..0] == [];
    }
  }

  /**
   * The bytes one entry takes: the rest of the current page or what is left,
   * whichever is less (the length is cast to `unsigned int` for the
   * comparison).
   */
  function SgStepLen(b: nat, l: nat): (r: nat)
    ensures r <= l && b % PAGE_SIZE + r <= PAGE_SIZE
    ensures l < TWO_32 ==> r == Min(PAGE_SIZE - b % PAGE_SIZE, l)
  {
    Min(PAGE_SIZE - b % PAGE_SIZE, l % TWO_32)
  }

  /** The entries of the segment loop for pinned pages `pages`. */
  function SgEntries(buf: nat, len: nat, pages: seq<nat>): (r: seq<SgEntry>)
    ensures |r| == |pages|
    decreases |pages|
  {
    if |pages| == 0 then []
    else
      var n := SgStepLen(buf, len);
      [SgEntry(pages[0], n, buf % PAGE_SIZE)] + SgEntries(buf + n, len - n, pages[1..])
  }

  /** Entry `k >= 1` is entry `k - 1` of the entries after the first. */
  lemma SgEntriesTail(buf: nat, len: nat, pages: seq<nat>)
    requires |pages| > 0
    ensures var n := SgStepLen(buf, len);
            && SgEntries(buf, len, pages)[0] == SgEntry(pages[0], n, buf % PAGE_SIZE)
            && forall k :: 1 <= k < |pages| ==> SgEntries(buf, len, pages)[k] == SgEntries(buf + n, len - n, pages[1..])[k - 1]
  {
  }

  /** Every entry stays inside its page, and entry `k` maps page `k`. */
  lemma {:induction false} SgEntriesInPages(buf: nat, len: nat, pages: seq<nat>)
    ensures forall k :: 0 <= k < |pages| ==> SgEntries(buf, len, pages)[k].offset + SgEntries(buf, len, pages)[k].length <= PAGE_SIZE
    ensures forall k :: 0 <= k < |pages| ==> SgEntries(buf, len, pages)[k].page == pages[k]
    decreases |pages|
  {
    if |pages| > 0 {
      var n := SgStepLen(buf, len);
      SgEntriesInPages(buf + n, len - n, pages[1..]);
      SgEntriesTail(buf, len, pages);
    }
  }

  /** After a first entry that fills the rest of its page, the remaining bytes start on a page boundary and need one page fewer. */
  lemma SgSpanShrinks(buf: nat, len: nat, m: nat)
    requires len < TWO_32 && ExactSpan(buf, len, m) && buf % PAGE_SIZE + len > PAGE_SIZE
    ensures SgStepLen(buf, len) == PAGE_SIZE - buf % PAGE_SIZE
    ensures (buf + SgStepLen(buf, len)) % PAGE_SIZE == 0
    ensures ExactSpan(buf + SgStepLen(buf, len), len - SgStepLen(buf, len), m - 1)
  {
    var n := PAGE_SIZE - buf % PAGE_SIZE;
    DivModUnique(buf + n, PAGE_SIZE, buf / PAGE_SIZE + 1, 0);
  }

  /** With exactly as many pages as the span needs, and a length below 4 GiB, the entries map all `len` bytes. */
  lemma {:induction false} SgEntriesTotal(buf: nat, len: nat, pages: seq<nat>)
    requires len < TWO_32 && ExactSpan(buf, len, |pages|)
    ensures Total(SgEntries(buf, len, pages)) == len
    decreases |pages|
  {
    var n := SgStepLen(buf, len);
    var rest := SgEntries(buf + n, len - n, pages[1..]);
    TotalPrepend(SgEntry(pages[0], n, buf % PAGE_SIZE), rest);
    if buf % PAGE_SIZE + len > PAGE_SIZE {
      SgSpanShrinks(buf, len, |pages|);
      SgEntriesTotal(buf + n, len - n, pages[1..]);
    } else {
      assert |pages| == 1;
    }
  }

  /** Under the same conditions only the first entry starts inside its page, and no entry is empty unless the transfer is. */
  lemma {:induction false} SgEntriesAligned(buf: nat, len: nat, pages: seq<nat>)
    requires len < TWO_32 && ExactSpan(buf, len, |pages|)
    ensures forall k :: 1 <= k < |pages| ==> SgEntries(buf, len, pages)[k].offset == 0
    ensures len > 0 ==> forall k :: 0 <= k < |pages| ==> SgEntries(buf, len, pages)[k].length > 0
    decreases |pages|
  {
    SgEntriesTail(buf, len, pages);
    if buf % PAGE_SIZE + len > PAGE_SIZE {
      var n := SgStepLen(buf, len);
      SgSpanShrinks(buf, len, |pages|);
      SgEntriesAligned(buf + n, len - n, pages[1..]);
      SgEntriesTail(buf + n, len - n, pages[1..]);
    } else {
      assert |pages| == 1;
    }
  }

  /** One turn of the segment loop keeps the entries so far plus those still to come equal to the whole list. */
  lemma SgLoopStep(entries: seq<SgEntry>, b: nat, l: nat, ps: seq<nat>)
    requires |ps| > 0
    ensures var n := SgStepLen(b, l);
            entries + SgEntries(b, l, ps) == (entries + [SgEntry(ps[0], n, b % PAGE_SIZE)]) + SgEntries(b + n, l - n, ps[1..])
  {
  }

  /** The segment loop of `tsn_char_sgdma_map_user_buf_to_sgl`: the entries and the bytes left unmapped. */
  method SgMapPages(buf: nat, len: nat, pages: seq<nat>) returns (entries: seq<SgEntry>, rest: nat)
    ensures entries == SgEntries(buf, len, pages)
    ensures rest == len - Total(entries)
  {
    entries := [];
    var b: nat, l: nat := buf, len;
    var i := 0;
    while i < |pages|
      invariant 0 <= i <= |pages|
      invariant entries + SgEntries(b, l, pages[i..]) == SgEntries(buf, len, pages)
      invariant Total(entries) + l == len
    {
      var offset := b % PAGE_SIZE;
      var nbytes := Min(PAGE_SIZE - offset, l % TWO_32);
      assert nbytes == SgStepLen(b, l);
      SgLoopStep(entries, b, l, pages[i..]);
      assert pages[i..][1..] == pages[i + 1..];
      TotalAppend(entries, SgEntry(pages[i], nbytes, offset));
      entries := entries + [SgEntry(pages[i], nbytes, offset)];
      b := b + nbytes;
      l := l - nbytes;
      i := i + 1;
    }
    assert pages[i..] == [];
    rest := l;
  }

  /** Two neighbouring pinned pages are the same page. */
  predicate HasAdjacentDuplicate(pages: seq<nat>)
  {
    exists i :: 1 <= i < |pages| && pages[i - 1] == pages[i]
  }

  /** The duplicate-page scan: whether two neighbouring pinned pages are equal. */
  method FindAdjacentDuplicate(pages: seq<nat>) returns (dup: bool)
    ensures dup <==> HasAdjacentDuplicate(pages)
  {
    var i := 1;
    while i < |pages|
      invariant 1 <= i <= |pages| || |pages| == 0
      invariant forall j :: 1 <= j < i && j < |pages| ==> pages[j - 1] != pages[j]
    {
      if pages[i - 1] == pages[i] {
        return true;
      }
      i := i + 1;
    }
    dup := false;
  }

  /**
   * `tsn_char_sgdma_map_user_buf_to_sgl`: the pages of the user buffer are
   * counted, the table and page array are allocated (`sgOk`, `pagesOk`),
   * the pages are pinned (`pinRv` is what pinning returns, `pinned` the
   * pages it pinned), duplicate neighbours are refused, and the pages are
   * cut into entries; bytes left over make the mapping fail.
   */
  method MapUserBufToSgl(buf: u64, len: u64, sgOk: bool, pagesOk: bool, pinRv: int, pinned: seq<nat>)
    returns (rc: int, entries: seq<SgEntry>)
    requires pinRv >= 0 ==> |pinned| == pinRv
    ensures var n := PagesNr(buf, len);
            && (n == 0 ==> rc == -EINVAL)
            && (n > 0 && !(sgOk && pagesOk) ==> rc == -ENOMEM)
            && (n > 0 && sgOk && pagesOk && pinRv < 0 ==> rc == pinRv)
            && (n > 0 && sgOk && pagesOk && pinRv >= 0 && pinRv != n ==> rc == -EFAULT)
            && (n > 0 && sgOk && pagesOk && pinRv == n && HasAdjacentDuplicate(pinned) ==> rc == -EFAULT)
            && (n > 0 && sgOk && pagesOk && pinRv == n && !HasAdjacentDuplicate(pinned) ==>
                  entries == SgEntries(buf, len, pinned)
                  && (rc == 0 <==> Total(entries) == len)
                  && (rc != 0 ==> rc == -EINVAL))
    ensures rc == 0 ==> Total(entries) == len && |entries| == PagesNr(buf, len)
  {
    entries := [];
    var n := PagesNr(buf, len);
    if n == 0 {
      return -EINVAL, [];
    }
    if !sgOk || !pagesOk {
      return -ENOMEM, [];
    }
    if pinRv < 0 {
      return pinRv, [];
    }
    if pinRv != n {
      return -EFAULT, [];
    }
    var dup := FindAdjacentDuplicate(pinned);
    if dup {
      return -EFAULT, [];
    }
    var rest;
    entries, rest := SgMapPages(buf, len, pinned);
    if rest != 0 {
      return -EINVAL, entries;
    }
    rc := 0;
  }

  /**
   * For a transfer shorter than 4 GiB whose page count does not wrap, the
   * leftover check never fails: once the pages are pinned the mapping
   * succeeds and covers every byte, only the first entry starting inside
   * its page.
   */
  lemma MapUserBufNeverShort(buf: u64, len: u64, pinned: seq<nat>)
    requires len < TWO_32 && buf % PAGE_SIZE + len > 0
    requires buf % PAGE_SIZE + len + PAGE_SIZE - 1 < TWO_64
    requires |pinned| == PagesNr(buf, len)
    ensures Total(SgEntries(buf, len, pinned)) == len
    ensures forall k :: 1 <= k < |pinned| ==> SgEntries(buf, len, pinned)[k].offset == 0
  {
    PagesNrSpan(buf, len);
    SgEntriesTotal(buf, len, pinned);
    SgEntriesAligned(buf, len, pinned);
  }
}
