/**
 * The per-port buffer pool of the XDMA sample: a fixed-capacity stack of
 * buffer addresses per Ethernet port, filled at start-up with the port's
 * buffers sorted by address.
 */
module BufferHandler {
  import opened Common

  /** A buffer address; 0 is `NULL`. */
  type Ptr = nat

  const NULL: Ptr := 0
  const NUMBER_OF_BUFFER: nat := 2048
  /** A stack holds one more entry than there are buffers (`NUMBER_OF_POOL_BUFFER`). */
  const NUMBER_OF_POOL_BUFFER: nat := NUMBER_OF_BUFFER + 1

  // ---------------------------------------------------------------------
  // quickSort
  // ---------------------------------------------------------------------

  /** `a[lo..hi]` is in ascending order. */
  ghost predicate SortedRange(a: seq<Ptr>, lo: int, hi: int)
    requires 0 <= lo <= hi <= |a|
  {
    forall x, y :: lo <= x < y < hi ==> a[x] <= a[y]
  }

  /** Every element of `a[lo..hi]` is at most `p`. */
  ghost predicate AllAtMost(a: seq<Ptr>, lo: int, hi: int, p: Ptr)
    requires 0 <= lo && hi <= |a|
  {
    forall k :: lo <= k < hi ==> a[k] <= p
  }

  /** Every element of `a[lo..hi]` is at least `p`. */
  ghost predicate AllAtLeast(a: seq<Ptr>, lo: int, hi: int, p: Ptr)
    requires 0 <= lo && hi <= |a|
  {
    forall k :: lo <= k < hi ==> a[k] >= p
  }

  /** `b` is `a` with the range `lo..hi` rearranged and everything else as it was. */
  ghost predicate PermutedWithin(a: seq<Ptr>, b: seq<Ptr>, lo: int, hi: int)
    requires 0 <= lo <= hi <= |a|
  {
    |b| == |a| && a[..lo] == b[..lo] && a[hi..] == b[hi..] && multiset(a[lo..hi]) == multiset(b[lo..hi])
  }

  /** Rearranging a range keeps every bound that held on it. */
  lemma PermutedKeepsBounds(a: seq<Ptr>, b: seq<Ptr>, lo: int, hi: int, p: Ptr)
    requires 0 <= lo <= hi <= |a| && PermutedWithin(a, b, lo, hi)
    ensures AllAtMost(a, lo, hi, p) ==> AllAtMost(b, lo, hi, p)
    ensures AllAtLeast(a, lo, hi, p) ==> AllAtLeast(b, lo, hi, p)
  {
    forall k | lo <= k < hi
      ensures b[k] in multiset(a[lo..hi])
    {
      assert b[k] == b[lo..hi][k - lo];
    }
    if AllAtMost(a, lo, hi, p) {
      forall k | lo <= k < hi ensures b[k] <= p {
        var i :| lo <= i < hi && a[i] == b[k] by {
          assert b[k] in a[lo..hi];
          var i' :| 0 <= i' < hi - lo && a[lo..hi][i'] == b[k];
          assert a[lo + i'] == b[k];
        }
      }
    }
    if AllAtLeast(a, lo, hi, p) {
      forall k | lo <= k < hi ensures b[k] >= p {
        var i :| lo <= i < hi && a[i] == b[k] by {
          assert b[k] in a[lo..hi];
          var i' :| 0 <= i' < hi - lo && a[lo..hi][i'] == b[k];
          assert a[lo + i'] == b[k];
        }
      }
    }
  }

  /** Rearranging `lo..hi` keeps a bound that held on a range `lo'..hi'` around it. */
  lemma PermutedKeepsOuterBounds(a: seq<Ptr>, b: seq<Ptr>, lo: int, hi: int, lo': int, hi': int, p: Ptr)
    requires 0 <= lo' <= lo <= hi <= hi' <= |a| && PermutedWithin(a, b, lo, hi)
    ensures AllAtMost(a, lo', hi', p) ==> AllAtMost(b, lo', hi', p)
    ensures AllAtLeast(a, lo', hi', p) ==> AllAtLeast(b, lo', hi', p)
  {
    PermutedKeepsBounds(a, b, lo, hi, p);
    forall k | 0 <= k < |a| && !(lo <= k < hi) ensures b[k] == a[k] {
      if k < lo {
        assert b[k] == b[..lo][k] && a[k] == a[..lo][k];
      } else {
        assert b[k] == b[hi..][k - hi] && a[k] == a[hi..][k - hi];
      }
    }
  }

  /** Entries outside the rearranged range keep their values. */
  lemma PermutedOutside(a: seq<Ptr>, b: seq<Ptr>, lo: int, hi: int)
    requires 0 <= lo <= hi <= |a| && PermutedWithin(a, b, lo, hi)
    ensures forall k :: 0 <= k < |a| && !(lo <= k < hi) ==> b[k] == a[k]
  {
    forall k | 0 <= k < |a| && !(lo <= k < hi) ensures b[k] == a[k] {
      if k < lo {
        assert b[k] == b[..lo][k] && a[k] == a[..lo][k];
      } else {
        assert b[k] == b[hi..][k - hi] && a[k] == a[hi..][k - hi];
      }
    }
  }

  /**
   * Two sorted ranges around a pivot make one: everything left of `i` is at
   * most the pivot, everything right of `j` at least the pivot, and the
   * parts `left..j` and `i..right` are each sorted.
   */
  lemma SortedCombine(a: seq<Ptr>, left: int, right: int, i: int, j: int, p: Ptr)
    requires 0 <= left <= j + 1 && j < i <= right + 1 && right < |a|
    requires SortedRange(a, left, j + 1) && SortedRange(a, i, right + 1)
    requires AllAtMost(a, left, i, p) && AllAtLeast(a, j + 1, right + 1, p)
    ensures SortedRange(a, left, right + 1)
  {
  }

  /** Rearranging a sub-range rearranges every range around it. */
  lemma PermutedWiden(a: seq<Ptr>, b: seq<Ptr>, lo: int, hi: int, lo': int, hi': int)
    requires 0 <= lo' <= lo <= hi <= hi' <= |a| && PermutedWithin(a, b, lo, hi)
    ensures PermutedWithin(a, b, lo', hi')
  {
    assert a[lo'..hi'] == a[lo'..lo] + a[lo..hi] + a[hi..hi'];
    assert b[lo'..hi'] == b[lo'..lo] + b[lo..hi] + b[hi..hi'];
    assert a[lo'..lo] == a[..lo][lo'..] && b[lo'..lo] == b[..lo][lo'..];
    assert a[hi..hi'] == a[hi..][..hi' - hi] && b[hi..hi'] == b[hi..][..hi' - hi];
    assert a[..lo'] == a[..lo][..lo'] && b[..lo'] == b[..lo][..lo'];
    assert a[hi'..] == a[hi..][hi' - hi..] && b[hi'..] == b[hi..][hi' - hi..];
  }

  lemma PermutedTrans(a: seq<Ptr>, b: seq<Ptr>, c: seq<Ptr>, lo: int, hi: int)
    requires 0 <= lo <= hi <= |a| && PermutedWithin(a, b, lo, hi) && PermutedWithin(b, c, lo, hi)
    ensures PermutedWithin(a, c, lo, hi)
  {
  }

  /** Exchanging two entries of a range rearranges the range. */
  lemma SwapPermutes(a: seq<Ptr>, lo: int, hi: int, x: int, y: int)
    requires 0 <= lo <= x < hi <= |a| && lo <= y < hi
    ensures PermutedWithin(a, a[x := a[y]][y := a[x]], lo, hi)
  {
    var b := a[x := a[y]][y := a[x]];
    assert a[..lo] == b[..lo];
    assert a[hi..] == b[hi..];
    assert b[lo..hi] == a[lo..hi][x - lo := a[y]][y - lo := a[x]];
  }

  /** An exchange of two out-of-place entries extends both settled ends by one. */
  lemma SwapStep(a: seq<Ptr>, left: int, right: int, i: int, j: int, p: Ptr)
    requires 0 <= left <= i <= j <= right < |a|
    requires forall k :: left <= k < i ==> a[k] <= p
    requires forall k :: j < k <= right ==> a[k] >= p
    requires a[i] >= p && a[j] <= p
    ensures var b := a[i := a[j]][j := a[i]];
            && (forall k :: left <= k < i + 1 ==> b[k] <= p)
            && (forall k :: j - 1 < k <= right ==> b[k] >= p)
  {
  }

  /**
   * The state of the partition loop: entries left of `i` are at most the
   * pivot, entries right of `j` at least the pivot, and once an exchange has
   * been made the entries just outside `i..j` are what the next walks stop at.
   */
  ghost predicate Settled(a: seq<Ptr>, left: int, right: int, i: int, j: int, p: Ptr)
  {
    0 <= left <= i <= right + 1 && left - 1 <= j <= right < |a| && (i > left) == (j < right)
    && (forall k :: left <= k < i ==> a[k] <= p)
    && (forall k :: j < k <= right ==> a[k] >= p)
    && (i <= j && i > left ==> a[i - 1] <= p && a[j + 1] >= p)
  }

  /** After the walks have crossed, the state is settled as it stands. */
  lemma CrossedSettled(a: seq<Ptr>, left: int, right: int, i: int, j: int, p: Ptr)
    requires 0 <= left < i <= right + 1 && left - 1 <= j < right && j < i && right < |a|
    requires forall k :: left <= k < i ==> a[k] <= p
    requires forall k :: j < k <= right ==> a[k] >= p
    ensures Settled(a, left, right, i, j, p)
  {
  }

  /** `while (arr[i] < pivot) i++;`, which stops at the latest at `stop`. */
  method ScanUp(arr: array<Ptr>, left: int, i0: int, ghost stop: int, p: Ptr) returns (i: int)
    requires 0 <= left <= i0 <= stop < arr.Length && arr[stop] >= p
    requires forall k :: left <= k < i0 ==> arr[k] <= p
    ensures i0 <= i <= stop && arr[i] >= p
    ensures forall k :: left <= k < i ==> arr[k] <= p
  {
    i := i0;
    while arr[i] < p
      invariant i0 <= i <= stop
      invariant forall k :: left <= k < i ==> arr[k] <= p
      decreases stop - i
    {
      i := i + 1;
    }
  }

  /** `while (arr[j] > pivot) j--;`, which stops at the latest at `stop`. */
  method ScanDown(arr: array<Ptr>, right: int, j0: int, ghost stop: int, p: Ptr) returns (j: int)
    requires 0 <= stop <= j0 <= right < arr.Length && arr[stop] <= p
    requires forall k :: j0 < k <= right ==> arr[k] >= p
    ensures stop <= j <= j0 && arr[j] <= p
    ensures forall k :: j < k <= right ==> arr[k] >= p
  {
    j := j0;
    while arr[j] > p
      invariant stop <= j <= j0
      invariant forall k :: j < k <= right ==> arr[k] >= p
      decreases j
    {
      j := j - 1;
    }
  }

  /** Exchanges two entries. */
  method Exchange(arr: array<Ptr>, x: int, y: int)
    requires 0 <= x < arr.Length && 0 <= y < arr.Length
    modifies arr
    ensures arr[..] == old(arr[..])[x := old(arr[y])][y := old(arr[x])]
  {
    arr[x], arr[y] := arr[y], arr[x];
  }

  /** The exchange of a turn settles one more entry at each end and rearranges the range. */
  lemma SwapSettles(a: seq<Ptr>, left: int, right: int, i: int, j: int, p: Ptr)
    requires 0 <= left <= i <= j <= right < |a|
    requires forall k :: left <= k < i ==> a[k] <= p
    requires forall k :: j < k <= right ==> a[k] >= p
    requires a[i] >= p && a[j] <= p
    ensures Settled(a[i := a[j]][j := a[i]], left, right, i + 1, j - 1, p)
    ensures PermutedWithin(a, a[i := a[j]][j := a[i]], left, right + 1)
  {
    SwapStep(a, left, right, i, j, p);
    SwapPermutes(a, left, right + 1, i, j);
  }

  /**
   * One turn of the partition loop: walk `i` up and `j` down, then exchange
   * the two entries and step past them if the walks have not crossed.
   */
  method PartitionStep(arr: array<Ptr>, left: int, right: int, ghost mid: int, p: Ptr, i0: int, j0: int)
    returns (i: int, j: int)
    requires Settled(arr[..], left, right, i0, j0, p) && i0 <= j0
    requires i0 == left ==> left <= mid <= right && arr[mid] == p
    modifies arr
    ensures Settled(arr[..], left, right, i, j, p) && left < i && j < right
    ensures PermutedWithin(old(arr[..]), arr[..], left, right + 1)
    ensures j - i < j0 - i0
  {
    ghost var first := i0 == left;
    i := ScanUp(arr, left, i0, if first then mid else j0 + 1, p);
    j := ScanDown(arr, right, j0, if first then mid else i0 - 1, p);
    ghost var a := arr[..];
    if i <= j {
      SwapSettles(a, left, right, i, j, p);
      Exchange(arr, i, j);
      i := i + 1;
      j := j - 1;
    } else {
      CrossedSettled(a, left, right, i, j, p);
    }
  }

  /**
   * The partition loop of `quickSort`: the pivot is the middle entry; `i`
   * walks up past entries below it, `j` walks down past entries above it,
   * and out-of-place pairs are exchanged until the two cross. There is no
   * bound check on either walk: each stops at an entry the previous
   * exchange (or, the first time, the pivot itself) placed in its way.
   */
  method Partition(arr: array<Ptr>, left: int, right: int) returns (i: int, j: int, pivot: Ptr)
    requires 0 <= left <= right < arr.Length
    modifies arr
    ensures PermutedWithin(old(arr[..]), arr[..], left, right + 1)
    ensures left < i <= right + 1 && left - 1 <= j < right && j < i
    ensures AllAtMost(arr[..], left, i, pivot) && AllAtLeast(arr[..], j + 1, right + 1, pivot)
  {
    ghost var a0 := arr[..];
    i, j := left, right;
    pivot := arr[(left + right) / 2];
    ghost var mid := (left + right) / 2;
    while i <= j
      invariant Settled(arr[..], left, right, i, j, pivot)
      invariant i == left ==> arr[mid] == pivot
      invariant PermutedWithin(a0, arr[..], left, right + 1)
      decreases j - i + 2
    {
      ghost var before := arr[..];
      i, j := PartitionStep(arr, left, right, mid, pivot, i, j);
      PermutedTrans(a0, before, arr[..], left, right + 1);
    }
  }

  /**
   * The two recursive calls of `quickSort` on the sides of a partition give
   * a sorted rearrangement of the whole range.
   */
  lemma QuickSortGlue(a0: seq<Ptr>, a1: seq<Ptr>, a2: seq<Ptr>, a3: seq<Ptr>, left: int, right: int, i: int, j: int, p: Ptr)
    requires 0 <= left <= j + 1 && j < i <= right + 1 && right < |a0|
    requires PermutedWithin(a0, a1, left, right + 1)
    requires AllAtMost(a1, left, i, p) && AllAtLeast(a1, j + 1, right + 1, p)
    requires PermutedWithin(a1, a2, left, j + 1) && SortedRange(a2, left, j + 1)
    requires PermutedWithin(a2, a3, i, right + 1) && SortedRange(a3, i, right + 1)
    ensures PermutedWithin(a0, a3, left, right + 1)
    ensures SortedRange(a3, left, right + 1)
  {
    GluePermuted(a0, a1, a2, a3, left, right, i, j);
    GlueSorted(a1, a2, a3, left, right, i, j, p);
  }

  /** The rearrangements of the partition and of the two sides compose. */
  lemma GluePermuted(a0: seq<Ptr>, a1: seq<Ptr>, a2: seq<Ptr>, a3: seq<Ptr>, left: int, right: int, i: int, j: int)
    requires 0 <= left <= j + 1 && j < i <= right + 1 && right < |a0|
    requires PermutedWithin(a0, a1, left, right + 1)
    requires PermutedWithin(a1, a2, left, j + 1)
    requires PermutedWithin(a2, a3, i, right + 1)
    ensures PermutedWithin(a0, a3, left, right + 1)
  {
    PermutedWiden(a1, a2, left, j + 1, left, right + 1);
    PermutedWiden(a2, a3, i, right + 1, left, right + 1);
    PermutedTrans(a0, a1, a2, left, right + 1);
    PermutedTrans(a0, a2, a3, left, right + 1);
  }

  /** Two sorted sides around the pivot make a sorted range. */
  lemma GlueSorted(a1: seq<Ptr>, a2: seq<Ptr>, a3: seq<Ptr>, left: int, right: int, i: int, j: int, p: Ptr)
    requires 0 <= left <= j + 1 && j < i <= right + 1 && right < |a1|
    requires AllAtMost(a1, left, i, p) && AllAtLeast(a1, j + 1, right + 1, p)
    requires PermutedWithin(a1, a2, left, j + 1) && SortedRange(a2, left, j + 1)
    requires PermutedWithin(a2, a3, i, right + 1) && SortedRange(a3, i, right + 1)
    ensures SortedRange(a3, left, right + 1)
  {
    assert AllAtMost(a2, left, i, p) by {
      PermutedKeepsOuterBounds(a1, a2, left, j + 1, left, i, p);
    }
    assert AllAtLeast(a2, j + 1, right + 1, p) by {
      PermutedOutside(a1, a2, left, j + 1);
    }
    assert AllAtMost(a3, left, i, p) && SortedRange(a3, left, j + 1) by {
      PermutedOutside(a2, a3, i, right + 1);
    }
    assert AllAtLeast(a3, j + 1, right + 1, p) by {
      PermutedKeepsOuterBounds(a2, a3, i, right + 1, j + 1, right + 1, p);
    }
    SortedCombine(a3, left, right, i, j, p);
  }

  /**
   * `quickSort(arr, left, right)`: `arr[left..right]` ends up in ascending
   * order and holds the same entries as before; no other entry changes.
   */
  method QuickSort(arr: array<Ptr>, left: int, right: int)
    requires 0 <= left <= right < arr.Length
    modifies arr
    ensures PermutedWithin(old(arr[..]), arr[..], left, right + 1)
    ensures SortedRange(arr[..], left, right + 1)
    decreases right - left
  {
    ghost var a0 := arr[..];
    var i, j, pivot := Partition(arr, left, right);
    ghost var a1 := arr[..];
    if left < j {
      QuickSort(arr, left, j);
    }
    ghost var a2 := arr[..];
    if i < right {
      QuickSort(arr, i, right);
    }
    QuickSortGlue(a0, a1, a2, arr[..], left, right, i, j, pivot);
  }

  // ---------------------------------------------------------------------
  // The stack of free buffers, on values
  // ---------------------------------------------------------------------

  /**
   * `buffer_pool_free` on the stack contents `s` (bottom first): -1 and no
   * change on a full stack, otherwise 0 with `x` on top.
   */
  function StackFree(s: seq<Ptr>, x: Ptr): (r: (int, seq<Ptr>))
    requires |s| <= NUMBER_OF_POOL_BUFFER
    ensures |r.1| <= NUMBER_OF_POOL_BUFFER
    ensures r.0 == 0 || r.0 == -1
  {
    if |s| == NUMBER_OF_POOL_BUFFER then (-1, s) else (0, s + [x])
  }

  /**
   * `buffer_pool_alloc` on the stack contents `s`: `NULL` and no change on an
   * empty stack, otherwise the top entry, removed.
   */
  function StackAlloc(s: seq<Ptr>): (r: (Ptr, seq<Ptr>))
    ensures |r.1| <= |s|
  {
    if |s| == 0 then (NULL, s) else (s[|s| - 1], s[..|s| - 1])
  }

  /** A free fails exactly when the stack is full, and a failed free changes nothing. */
  lemma StackFreeFails(s: seq<Ptr>, x: Ptr)
    requires |s| <= NUMBER_OF_POOL_BUFFER
    ensures StackFree(s, x).0 == -1 <==> |s| == NUMBER_OF_POOL_BUFFER
    ensures StackFree(s, x).0 == -1 ==> StackFree(s, x).1 == s
    ensures StackFree(s, x).0 == 0 ==> |StackFree(s, x).1| == |s| + 1
  {
  }

  /** An alloc right after a successful free of `x` returns `x` and restores the stack. */
  lemma FreeThenAlloc(s: seq<Ptr>, x: Ptr)
    requires |s| < NUMBER_OF_POOL_BUFFER
    ensures StackFree(s, x).0 == 0
    ensures StackAlloc(StackFree(s, x).1) == (x, s)
  {
    assert (s + [x])[..|s|] == s;
  }

  /** Freeing what an alloc returned puts the stack back as it was. */
  lemma AllocThenFree(s: seq<Ptr>)
    requires 0 < |s| <= NUMBER_OF_POOL_BUFFER
    ensures StackFree(StackAlloc(s).1, StackAlloc(s).0) == (0, s)
  {
    assert s[..|s| - 1] + [s[|s| - 1]] == s;
  }

  /** Alloc returns `NULL` exactly on an empty stack when no `NULL` was ever freed. */
  lemma AllocNullOnlyWhenEmpty(s: seq<Ptr>)
    requires forall k :: 0 <= k < |s| ==> s[k] != NULL
    ensures StackAlloc(s).0 == NULL <==> |s| == 0
    ensures |s| > 0 ==> |StackAlloc(s).1| == |s| - 1
  {
  }

  /** On a sorted stack the first alloc returns the highest address. */
  lemma AllocReturnsMax(s: seq<Ptr>)
    requires 0 < |s| && SortedRange(s, 0, |s|)
    ensures forall k :: 0 <= k < |s| ==> s[k] <= StackAlloc(s).0
    ensures StackAlloc(s).0 in s
  {
  }

  // ---------------------------------------------------------------------
  // The per-port stacks
  // ---------------------------------------------------------------------

  /** `buffer_stack_t`: `elements[0..top]` are the free buffers, `top == -1` when none is. */
  class BufferStack {
    var elements: array<Ptr>
    var top: int

    ghost predicate Valid()
      reads this
    {
      elements.Length == NUMBER_OF_POOL_BUFFER && -1 <= top < NUMBER_OF_POOL_BUFFER
    }

    /** The free buffers, bottom first. */
    ghost function Contents(): seq<Ptr>
      reads this, elements
      requires Valid()
    {
      elements[..top + 1]
    }

    constructor()
      ensures Valid() && fresh(elements) && top == -1 && Contents() == []
    {
      elements := new Ptr[NUMBER_OF_POOL_BUFFER](_ => NULL);
      top := -1;
    }
  }

  /**
   * The stacks of all ports (`stack[NUMBER_OF_ETH_PORT]`). The number of
   * ports is a parameter of the model.
   */
  class BufferPool {
    var stacks: seq<BufferStack>
    ghost var Repr: set<object>

    ghost predicate Valid()
      reads this, Repr
    {
      this in Repr &&
      (forall q :: 0 <= q < |stacks| ==> stacks[q] in Repr && stacks[q].elements in Repr) &&
      (forall q :: 0 <= q < |stacks| ==> stacks[q].Valid()) &&
      (forall q, r :: 0 <= q < r < |stacks| ==> stacks[q] != stacks[r] && stacks[q].elements != stacks[r].elements)
    }

    /** The free buffers of port `port`, bottom first. */
    ghost function Contents(port: int): seq<Ptr>
      reads this, Repr
      requires Valid() && 0 <= port < |stacks|
    {
      stacks[port].Contents()
    }

    /** One empty stack per port. */
    constructor(nports: nat)
      ensures Valid() && fresh(Repr) && |stacks| == nports
      ensures forall q :: 0 <= q < nports ==> Contents(q) == []
    {
      var ss: seq<BufferStack> := [];
      ghost var repr: set<object> := {};
      while |ss| < nports
        invariant |ss| <= nports && fresh(repr)
        invariant forall q :: 0 <= q < |ss| ==> ss[q] in repr && ss[q].elements in repr
        invariant forall q :: 0 <= q < |ss| ==> ss[q].Valid() && ss[q].Contents() == []
        invariant forall q, r :: 0 <= q < r < |ss| ==> ss[q] != ss[r] && ss[q].elements != ss[r].elements
      {
        var st := new BufferStack();
        ss := ss + [st];
        repr := repr + {st, st.elements};
      }
      stacks := ss;
      Repr := repr + {this};
    }

    /** `isStackEmpty(port)`. */
    function IsStackEmpty(port: int): (r: bool)
      reads this, Repr
      requires Valid() && 0 <= port < |stacks|
      ensures r <==> Contents(port) == []
    {
      stacks[port].top == -1
    }

    /** `isStackFull(port)`: all `NUMBER_OF_POOL_BUFFER` places are taken. */
    function IsStackFull(port: int): (r: bool)
      reads this, Repr
      requires Valid() && 0 <= port < |stacks|
      ensures r <==> |Contents(port)| == NUMBER_OF_POOL_BUFFER
    {
      stacks[port].top == NUMBER_OF_POOL_BUFFER - 1
    }

    /** `stack[port]->top = -1`: the port's stack becomes empty; the other ports' stacks do not change. */
    method ResetStack(port: int)
      requires Valid() && 0 <= port < |stacks|
      modifies stacks[port]
      ensures Valid() && Contents(port) == []
      ensures stacks[port].elements == old(stacks[port].elements)
      ensures forall q :: 0 <= q < |stacks| && q != port ==> Contents(q) == old(Contents(q))
    {
      stacks[port].top := -1;
    }

    /**
     * `buffer_pool_free(port, element)`: pushes `element` unless the stack
     * is full; the other ports' stacks do not change.
     */
    method Free(port: int, element: Ptr) returns (rc: int)
      requires Valid() && 0 <= port < |stacks|
      modifies stacks[port], stacks[port].elements
      ensures Valid()
      ensures (rc, Contents(port)) == StackFree(old(Contents(port)), element)
      ensures stacks[port].elements[..] == if rc == 0 then old(stacks[port].elements[..])[stacks[port].top := element] else old(stacks[port].elements[..])
      ensures stacks[port].top == old(stacks[port].top) + (if rc == 0 then 1 else 0)
      ensures stacks[port].elements == old(stacks[port].elements)
      ensures forall q :: 0 <= q < |stacks| && q != port ==> Contents(q) == old(Contents(q))
    {
      var st := stacks[port];
      if IsStackFull(port) {
        return -1;
      }
      st.top := st.top + 1;
      st.elements[st.top] := element;
      rc := 0;
      assert Contents(port) == old(Contents(port)) + [element];
    }

    /**
     * `buffer_pool_alloc(port)`: pops the top buffer, or returns `NULL` on an
     * empty stack; the other ports' stacks do not change.
     */
    method Alloc(port: int) returns (p: Ptr)
      requires Valid() && 0 <= port < |stacks|
      modifies stacks[port]
      ensures Valid()
      ensures (p, Contents(port)) == StackAlloc(old(Contents(port)))
      ensures stacks[port].top == old(stacks[port].top) - (if old(IsStackEmpty(port)) then 0 else 1)
      ensures stacks[port].elements == old(stacks[port].elements)
      ensures forall q :: 0 <= q < |stacks| && q != port ==> Contents(q) == old(Contents(q))
    {
      var st := stacks[port];
      if IsStackEmpty(port) {
        return NULL;
      }
      p := st.elements[st.top];
      st.top := st.top - 1;
      assert Contents(port) == old(Contents(port))[..st.top + 1];
    }
  }

  // ---------------------------------------------------------------------
  // initialize_buffer_allocation
  // ---------------------------------------------------------------------

  /**
   * The outcome of `posix_memalign` for buffer `id` of port `port`: the
   * address, or `None` when memory ran out.
   */
  type Allocator = (int, int) -> Option<Ptr>

  /** Every buffer of port `port` could be allocated. */
  ghost predicate PortAllocated(mem: Allocator, port: int)
  {
    forall id :: 0 <= id < NUMBER_OF_BUFFER ==> mem(port, id).Some?
  }

  /** `buffer_list[port]` as allocated, in allocation order. */
  ghost function PortBuffers(mem: Allocator, port: int): seq<Ptr>
  {
    seq(NUMBER_OF_BUFFER, id => if mem(port, id).Some? then mem(port, id).value else NULL)
  }

  /** A port's stack after start-up: all its buffers, lowest address at the bottom. */
  ghost predicate HoldsSortedBuffers(s: seq<Ptr>, mem: Allocator, port: int)
  {
    |s| == NUMBER_OF_BUFFER && SortedRange(s, 0, |s|) && multiset(s) == multiset(PortBuffers(mem, port))
  }

  /** After start-up the first alloc on a port returns its highest buffer address. */
  lemma FirstAllocIsHighest(s: seq<Ptr>, mem: Allocator, port: int)
    requires HoldsSortedBuffers(s, mem, port)
    ensures StackAlloc(s).0 in PortBuffers(mem, port)
    ensures forall k :: 0 <= k < NUMBER_OF_BUFFER ==> PortBuffers(mem, port)[k] <= StackAlloc(s).0
  {
    AllocReturnsMax(s);
    assert StackAlloc(s).0 in multiset(PortBuffers(mem, port));
    forall k | 0 <= k < NUMBER_OF_BUFFER ensures PortBuffers(mem, port)[k] <= StackAlloc(s).0 {
      assert PortBuffers(mem, port)[k] in multiset(s);
    }
  }

  /**
   * The allocation loop of one port: `buffer_list[port]` is filled in
   * allocation order; `false` at the first failed allocation.
   */
  method AllocatePortBuffers(mem: Allocator, port: int) returns (ok: bool, list: array<Ptr>)
    ensures fresh(list) && list.Length == NUMBER_OF_BUFFER
    ensures ok <==> PortAllocated(mem, port)
    ensures ok ==> list[..] == PortBuffers(mem, port)
  {
    list := new Ptr[NUMBER_OF_BUFFER](_ => NULL);
    var id := 0;
    while id < NUMBER_OF_BUFFER
      invariant 0 <= id <= NUMBER_OF_BUFFER
      invariant forall k :: 0 <= k < id ==> mem(port, k).Some? && list[k] == mem(port, k).value
      modifies list
    {
      var buffer := mem(port, id);
      if buffer.None? {
        return false, list;
      }
      list[id] := buffer.value;
      id := id + 1;
    }
    ok := true;
  }

  /**
   * The push loop of one port: every entry of `list` is freed onto the
   * port's empty stack in order; none of the pushes fails.
   */
  method PushAll(pool: BufferPool, port: int, list: array<Ptr>)
    requires pool.Valid() && 0 <= port < |pool.stacks| && pool.Contents(port) == []
    requires list.Length == NUMBER_OF_BUFFER && list !in pool.Repr
    modifies pool.stacks[port], pool.stacks[port].elements
    ensures pool.Valid() && pool.Contents(port) == list[..]
    ensures forall q :: 0 <= q < |pool.stacks| && q != port ==> pool.Contents(q) == old(pool.Contents(q))
  {
    var id := 0;
    while id < NUMBER_OF_BUFFER
      invariant 0 <= id <= NUMBER_OF_BUFFER && pool.Valid()
      invariant pool.Contents(port) == list[..id]
      invariant pool.stacks[port].elements == old(pool.stacks[port].elements)
      invariant forall q :: 0 <= q < |pool.stacks| && q != port ==> pool.Contents(q) == old(pool.Contents(q))
    {
      var r := pool.Free(port, list[id]);
      assert r == 0;
      assert list[..id + 1] == list[..id] + [list[id]];
      id := id + 1;
    }
    assert list[..id] == list[..];
  }

  /**
   * One port of `initialize_buffer_allocation`: reset the stack, allocate
   * the buffers, sort them by address and push them in that order.
   */
  method InitializePort(pool: BufferPool, mem: Allocator, port: int) returns (ok: bool)
    requires pool.Valid() && 0 <= port < |pool.stacks|
    modifies pool.stacks[port], pool.stacks[port].elements
    ensures pool.Valid()
    ensures ok <==> PortAllocated(mem, port)
    ensures ok ==> HoldsSortedBuffers(pool.Contents(port), mem, port)
    ensures forall q :: 0 <= q < |pool.stacks| && q != port ==> pool.Contents(q) == old(pool.Contents(q))
  {
    pool.ResetStack(port);
    var list;
    ok, list := AllocatePortBuffers(mem, port);
    if !ok {
      return;
    }
    QuickSort(list, 0, NUMBER_OF_BUFFER - 1);
    assert multiset(list[..]) == multiset(PortBuffers(mem, port)) by {
      assert list[..] == list[0..NUMBER_OF_BUFFER];
      assert PortBuffers(mem, port) == PortBuffers(mem, port)[0..NUMBER_OF_BUFFER];
    }
    PushAll(pool, port, list);
  }

  /**
   * `initialize_buffer_allocation` for `nports` ports: each port's buffers
   * are allocated, sorted by address and pushed onto its stack in that
   * order; -1 as soon as an allocation fails. The pushes never fail, because
   * a stack has room for one more entry than there are buffers.
   */
  method InitializeBufferAllocation(nports: nat, mem: Allocator) returns (rc: int, pool: BufferPool)
    ensures fresh(pool) && pool.Valid() && |pool.stacks| == nports
    ensures rc == 0 || rc == -1
    ensures rc == 0 <==> forall p :: 0 <= p < nports ==> PortAllocated(mem, p)
    ensures rc == 0 ==> forall p :: 0 <= p < nports ==> HoldsSortedBuffers(pool.Contents(p), mem, p)
  {
    pool := new BufferPool(nports);
    var port := 0;
    while port < nports
      invariant 0 <= port <= nports && fresh(pool) && fresh(pool.Repr) && pool.Valid() && |pool.stacks| == nports
      invariant forall p :: 0 <= p < port ==> PortAllocated(mem, p) && HoldsSortedBuffers(pool.Contents(p), mem, p)
    {
      var ok := InitializePort(pool, mem, port);
      if !ok {
        return -1, pool;
      }
      port := port + 1;
    }
    rc := 0;
  }
}
