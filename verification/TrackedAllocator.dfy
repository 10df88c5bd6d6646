/**
  The tracked allocator of mem_test.c over byte memory.  Each block carries its size in a header
  of sizeof(size_t) bytes in front of the address handed out, and a counter keeps the bytes in use.
  malloc itself is the caller's choice of a free place; writes into a block are the client's.
*/
module TrackedAllocator {
  import opened Common

  const HEADER := 8

  /** One past the last address, and one more than the largest size_t. */
  const SPACE := TWO_64

  // ---------------------------------------------------------------------------------------------
  // Headers

  type Bytes = seq<nat>

  /** memcpy of a size_t into k bytes, lowest byte first. */
  function Encode(n: nat, k: nat): (b: Bytes)
    ensures |b| == k
  {
    if k == 0 then [] else [n % 256] + Encode(n / 256, k - 1)
  }

  function Decode(b: Bytes): nat {
    if b == [] then 0 else b[0] + 256 * Decode(b[1..])
  }

  function Limit(k: nat): nat {
    if k == 0 then 1 else 256 * Limit(k - 1)
  }

  lemma {:induction false} DecodeEncode(n: nat, k: nat)
    requires n < Limit(k)
    ensures Decode(Encode(n, k)) == n
  {
    if k > 0 {
      DecodeEncode(n / 256, k - 1);
      assert Encode(n, k)[1..] == Encode(n / 256, k - 1);
    }
  }

  lemma HeaderLimit()
    ensures Limit(HEADER) == SPACE
  {
    assert Limit(2) == 0x1_0000;
    assert Limit(4) == 0x1_0000_0000;
    assert Limit(6) == 0x1_0000_0000_0000;
  }

  /** Every size_t survives the way through its header. */
  lemma HeaderRoundTrip(size: nat)
    requires size < SPACE
    ensures Decode(Encode(size, HEADER)) == size
  {
    HeaderLimit();
    DecodeEncode(size, HEADER);
  }

  /** size + sizeof(size_t) in size_t arithmetic. */
  function TotalSize(size: nat): nat {
    (size + HEADER) % SPACE
  }

  /** The block is large enough for its header exactly if the sum does not wrap. */
  lemma HeaderFits(size: nat)
    requires size < 0x1_0000_0000_0000_0000
    ensures TotalSize(size) >= 8 <==> size + 8 < 0x1_0000_0000_0000_0000
    ensures size + 8 < 0x1_0000_0000_0000_0000 ==> TotalSize(size) == size + 8
  {
  }

  /** The largest size_t wraps: its block has seven bytes, less than its header. */
  lemma LargestSizeWraps()
    ensures TotalSize(0xffff_ffff_ffff_ffff) == 7
  {
    assert SPACE - 1 + HEADER == SPACE + (HEADER - 1);
  }

  // ---------------------------------------------------------------------------------------------
  // Memory and blocks

  type Memory = map<nat, nat>

  function ByteAt(m: Memory, a: nat): nat {
    if a in m then m[a] else 0
  }

  function BytesAt(m: Memory, a: nat, k: nat): (b: Bytes)
    ensures |b| == k
  {
    seq<nat>(k, i requires 0 <= i < k => ByteAt(m, a + i))
  }

  function Store(m: Memory, a: nat, b: Bytes): Memory
    decreases |b|
  {
    if b == [] then m else Store(m[a := b[0]], a + 1, b[1..])
  }

  lemma {:induction false} StoreElsewhere(m: Memory, a: nat, b: Bytes, x: nat)
    requires !(a <= x < a + |b|)
    ensures ByteAt(Store(m, a, b), x) == ByteAt(m, x)
    decreases |b|
  {
    if b != [] {
      StoreElsewhere(m[a := b[0]], a + 1, b[1..], x);
    }
  }

  lemma {:induction false} StoreThere(m: Memory, a: nat, b: Bytes)
    ensures BytesAt(Store(m, a, b), a, |b|) == b
    decreases |b|
  {
    if b != [] {
      var m1 := m[a := b[0]];
      StoreThere(m1, a + 1, b[1..]);
      StoreElsewhere(m1, a + 1, b[1..], a);
      forall i | 0 <= i < |b|
        ensures BytesAt(Store(m, a, b), a, |b|)[i] == b[i]
      {
        if i > 0 {
          assert BytesAt(Store(m1, a + 1, b[1..]), a + 1, |b| - 1)[i - 1] == b[1..][i - 1];
        }
      }
    }
  }

  /** A live block: the address handed out and the requested size. */
  datatype Block = Block(ptr: nat, size: nat)

  ghost predicate InSpace(b: Block) {
    HEADER <= b.ptr && b.ptr + b.size <= SPACE
  }

  predicate Disjoint(a: Block, b: Block) {
    a.ptr + a.size <= b.ptr - HEADER || b.ptr + b.size <= a.ptr - HEADER
  }

  function HeaderOf(m: Memory, ptr: nat): nat
    requires ptr >= HEADER
  {
    Decode(BytesAt(m, ptr - HEADER, HEADER))
  }

  ghost predicate Laid(live: seq<Block>) {
    && (forall i :: 0 <= i < |live| ==> InSpace(live[i]))
    && forall i, j :: 0 <= i < j < |live| ==> Disjoint(live[i], live[j])
  }

  /** Every header still decodes to the requested size. */
  ghost predicate HeadersKept(m: Memory, live: seq<Block>)
    requires Laid(live)
  {
    forall i :: 0 <= i < |live| ==> HeaderOf(m, live[i].ptr) == live[i].size
  }

  function Sizes(live: seq<Block>): seq<int> {
    seq(|live|, i requires 0 <= i < |live| => live[i].size)
  }

  function Without(live: seq<Block>, i: nat): seq<Block>
    requires i < |live|
  {
    live[..i] + live[i + 1..]
  }

  lemma SumWithout(live: seq<Block>, i: nat)
    requires i < |live|
    ensures Sum(Sizes(live)) == Sum(Sizes(Without(live, i))) + live[i].size
  {
    var before, after := Sizes(live[..i]), Sizes(live[i + 1..]);
    assert Sizes(Without(live, i)) == before + after;
    assert Sizes(live) == (before + [live[i].size]) + after;
    SumAppend(before, after);
    SumAppend(before + [live[i].size], after);
    assert (before + [live[i].size])[..|before|] == before;
  }

  lemma SumWith(live: seq<Block>, b: Block)
    ensures Sum(Sizes(live + [b])) == Sum(Sizes(live)) + b.size
  {
    assert Sizes(live + [b])[..|live|] == Sizes(live);
  }

  // ---------------------------------------------------------------------------------------------
  // The live blocks fit into the address space, so that the counter never wraps

  function Range(lo: nat, hi: nat): set<nat>
    requires lo <= hi
    decreases hi - lo
  {
    if lo == hi then {} else Range(lo, hi - 1) + {hi - 1}
  }

  lemma {:induction false} RangeSize(lo: nat, hi: nat)
    requires lo <= hi
    ensures |Range(lo, hi)| == hi - lo
    ensures forall x :: x in Range(lo, hi) <==> lo <= x < hi
    decreases hi - lo
  {
    if lo < hi {
      RangeSize(lo, hi - 1);
    }
  }

  /** The cells of a block, its header included. */
  function Cells(b: Block): set<nat>
    requires b.ptr >= HEADER
  {
    Range(b.ptr - HEADER, b.ptr + b.size)
  }

  lemma CellsSize(b: Block)
    requires InSpace(b)
    ensures |Cells(b)| == b.size + HEADER
    ensures forall x :: x in Cells(b) <==> b.ptr - HEADER <= x < b.ptr + b.size
  {
    RangeSize(b.ptr - HEADER, b.ptr + b.size);
  }

  /** The cells of the first k blocks, and their number. */
  function Occupied(live: seq<Block>, k: nat): set<nat>
    requires k <= |live| && Laid(live)
  {
    if k == 0 then {} else assert InSpace(live[k - 1]); Occupied(live, k - 1) + Cells(live[k - 1])
  }

  function Used(live: seq<Block>, k: nat): nat
    requires k <= |live|
  {
    if k == 0 then 0 else Used(live, k - 1) + live[k - 1].size + HEADER
  }

  lemma {:induction false} OccupiedInside(live: seq<Block>, k: nat, x: nat)
    requires k <= |live| && Laid(live) && x in Occupied(live, k)
    ensures x < SPACE
    ensures forall b :: InSpace(b) && (forall i :: 0 <= i < k ==> Disjoint(live[i], b)) ==> x !in Cells(b)
  {
    if x in Occupied(live, k - 1) {
      OccupiedInside(live, k - 1, x);
    } else {
      CellsSize(live[k - 1]);
      forall b | InSpace(b) && Disjoint(live[k - 1], b)
        ensures x !in Cells(b)
      {
        CellsSize(b);
      }
    }
  }

  lemma OccupiedApart(live: seq<Block>, k: nat)
    requires 0 < k <= |live| && Laid(live)
    ensures InSpace(live[k - 1]) && Occupied(live, k - 1) !! Cells(live[k - 1])
  {
    var b := live[k - 1];
    forall x | x in Occupied(live, k - 1)
      ensures x !in Cells(b)
    {
      OccupiedInside(live, k - 1, x);
    }
  }

  lemma {:induction false} OccupiedSize(live: seq<Block>, k: nat)
    requires k <= |live| && Laid(live)
    ensures |Occupied(live, k)| == Used(live, k)
  {
    if k > 0 {
      OccupiedSize(live, k - 1);
      CellsSize(live[k - 1]);
      OccupiedApart(live, k);
    }
  }

  lemma {:induction false} UsedIsSum(live: seq<Block>, k: nat)
    requires k <= |live|
    ensures Used(live, k) == Sum(Sizes(live)[..k]) + HEADER * k
  {
    if k > 0 {
      UsedIsSum(live, k - 1);
      assert Sizes(live)[..k][..k - 1] == Sizes(live)[..k - 1];
    }
  }

  lemma SubsetSize(a: set<nat>, b: set<nat>)
    requires a <= b
    ensures |a| <= |b|
  {
    assert b == a + (b - a);
  }

  /** Disjoint blocks, headers included, never exceed the address space. */
  lemma LiveBlocksFit(live: seq<Block>)
    requires Laid(live)
    ensures Sum(Sizes(live)) + HEADER * |live| <= SPACE
  {
    var n := |live|;
    OccupiedSize(live, n);
    RangeSize(0, SPACE);
    forall x | x in Occupied(live, n)
      ensures x in Range(0, SPACE)
    {
      OccupiedInside(live, n, x);
    }
    SubsetSize(Occupied(live, n), Range(0, SPACE));
    UsedIsSum(live, n);
    assert Sizes(live)[..n] == Sizes(live);
  }

  lemma {:induction false} SumIsPositive(s: seq<int>)
    requires forall i :: 0 <= i < |s| ==> s[i] >= 0
    ensures Sum(s) >= 0
    ensures Sum(s) > 0 <==> exists i :: 0 <= i < |s| && s[i] > 0
  {
    if s != [] {
      var n := |s| - 1;
      SumIsPositive(s[..n]);
      if i :| 0 <= i < n && s[i] > 0 {
        assert s[..n][i] > 0;
      }
    }
  }

  lemma WithoutKept(m: Memory, live: seq<Block>, i: nat)
    requires Laid(live) && HeadersKept(m, live) && i < |live|
    ensures Laid(Without(live, i)) && HeadersKept(m, Without(live, i))
  {
  }

  /** What one block contributes is part of the sum. */
  lemma BlockInSum(live: seq<Block>, i: nat)
    requires i < |live|
    ensures Sum(Sizes(Without(live, i))) == Sum(Sizes(live)) - live[i].size >= 0
  {
    SumWithout(live, i);
    SumNonNegative(Sizes(Without(live, i)));
  }

  /** A new block never makes the counter wrap. */
  lemma NewBlockFits(live: seq<Block>, b: Block)
    requires Laid(live + [b])
    ensures Sum(Sizes(live + [b])) == Sum(Sizes(live)) + b.size < SPACE
  {
    SumWith(live, b);
    LiveBlocksFit(live + [b]);
  }

  // ---------------------------------------------------------------------------------------------
  // The allocator

  class Allocator {
    var memory: Memory
    var allocatedBytes: nat
    var trackingEnabled: bool
    ghost var live: seq<Block>

    /** Live blocks lie apart and their headers are intact. */
    ghost predicate Valid()
      reads this
    {
      Laid(live) && HeadersKept(memory, live)
    }

    /** Tracking has been on for every live block: the counter is the sum of their sizes. */
    ghost predicate Tracked()
      reads this
    {
      trackingEnabled && allocatedBytes == Sum(Sizes(live))
    }

    constructor (memory: Memory)
      ensures Valid() && live == [] && allocatedBytes == 0 && !trackingEnabled
    {
      this.memory := memory;
      allocatedBytes, trackingEnabled, live := 0, false, [];
    }

    method EnableMemoryTracking()
      requires Valid()
      modifies this`trackingEnabled
      ensures Valid() && trackingEnabled
      ensures allocatedBytes == Sum(Sizes(live)) ==> Tracked()
    {
      trackingEnabled := true;
    }

    method DisableMemoryTracking()
      requires Valid()
      modifies this`trackingEnabled
      ensures Valid() && !trackingEnabled
    {
      trackingEnabled := false;
    }

    method GetAllocatedBytes() returns (bytes: nat)
      ensures bytes == allocatedBytes
      ensures Tracked() ==> bytes == Sum(Sizes(live)) && (live == [] ==> bytes == 0)
    {
      bytes := allocatedBytes;
    }

    /** test_malloc; raw is what malloc returns for the total size, None if it fails. */
    method TestMalloc(size: nat, raw: Option<nat>) returns (ptr: Option<nat>)
      requires Valid() && size + HEADER < SPACE
      requires raw.Some? ==> raw.value + TotalSize(size) <= SPACE
      requires raw.Some? ==> forall i :: 0 <= i < |live| ==> Disjoint(live[i], Block(raw.value + HEADER, size))
      modifies this
      ensures Valid() && trackingEnabled == old(trackingEnabled)
      ensures raw.None? ==> ptr.None? && live == old(live) && allocatedBytes == old(allocatedBytes)
      ensures raw.Some? ==> ptr == Some(raw.value + HEADER) && live == old(live) + [Block(ptr.value, size)]
      ensures !trackingEnabled ==> allocatedBytes == old(allocatedBytes)
      ensures old(Tracked()) ==> Tracked()
    {
      if raw.None? {
        return None;
      }
      HeaderFits(size);
      var header := Encode(size, HEADER);
      var p := raw.value + HEADER;
      ghost var b := Block(p, size);
      memory := Store(memory, raw.value, header);
      HeaderWritten(old(memory), live, b);
      NewBlockFits(live, b);
      live := live + [b];
      if trackingEnabled {
        allocatedBytes := (allocatedBytes + size) % SPACE;
      }
      return Some(p);
    }

    /** test_free of a live block, or of a null pointer.  The counter is reset to 0 exactly where it is
        less than the block's size, which takes blocks allocated while tracking was off. */
    method TestFree(ptr: Option<nat>, ghost i: nat)
      requires Valid()
      requires ptr.Some? ==> i < |live| && live[i].ptr == ptr.value
      modifies this
      ensures Valid() && trackingEnabled == old(trackingEnabled)
      ensures ptr.None? ==> live == old(live) && allocatedBytes == old(allocatedBytes)
      ensures ptr.Some? ==> live == Without(old(live), i)
      ensures !trackingEnabled ==> allocatedBytes == old(allocatedBytes)
      ensures ptr.Some? && old(Tracked()) ==> Tracked() && allocatedBytes == old(allocatedBytes) - old(live[i].size)
      ensures ptr.Some? && trackingEnabled ==>
        allocatedBytes == if old(live[i].size) > old(allocatedBytes) then 0 else old(allocatedBytes) - old(live[i].size)
    {
      if ptr.None? {
        return;
      }
      var size := Decode(BytesAt(memory, ptr.value - HEADER, HEADER));
      assert size == live[i].size;
      BlockInSum(live, i);
      WithoutKept(memory, live, i);
      if trackingEnabled {
        if allocatedBytes >= size {
          allocatedBytes := allocatedBytes - size;
        } else {
          allocatedBytes := 0;
        }
      }
      live := Without(live, i);
    }

    /** The client writes a byte inside one of its blocks. */
    method WritePayload(ghost i: nat, address: nat, value: nat)
      requires Valid() && i < |live| && live[i].ptr <= address < live[i].ptr + live[i].size
      modifies this`memory
      ensures Valid()
      ensures memory == old(memory)[address := value]
    {
      memory := memory[address := value];
      PayloadWritten(old(memory), live, i, address, value);
    }

    /** check_for_leaks: whether the program is ended. */
    method CheckForLeaks() returns (exits: bool)
      requires Valid()
      ensures exits <==> allocatedBytes > 0
      ensures Tracked() ==> (exits <==> exists i :: 0 <= i < |live| && live[i].size > 0)
    {
      exits := allocatedBytes > 0;
      SumIsPositive(Sizes(live));
      assert forall i :: 0 <= i < |live| ==> Sizes(live)[i] == live[i].size;
    }
  }

  /** Headers are equal where their bytes are. */
  lemma SameHeader(m: Memory, m': Memory, ptr: nat)
    requires ptr >= HEADER
    requires forall a: nat :: ptr - HEADER <= a < ptr ==> ByteAt(m', a) == ByteAt(m, a)
    ensures HeaderOf(m', ptr) == HeaderOf(m, ptr)
  {
    assert BytesAt(m', ptr - HEADER, HEADER) == BytesAt(m, ptr - HEADER, HEADER);
  }

  /** Writing a new header disturbs no other header. */
  lemma HeaderWritten(m: Memory, live: seq<Block>, b: Block)
    requires Laid(live) && HeadersKept(m, live) && InSpace(b) && b.size < SPACE
    requires forall i :: 0 <= i < |live| ==> Disjoint(live[i], b)
    ensures Laid(live + [b])
    ensures HeadersKept(Store(m, b.ptr - HEADER, Encode(b.size, HEADER)), live + [b])
  {
    var header := Encode(b.size, HEADER);
    var m' := Store(m, b.ptr - HEADER, header);
    StoreThere(m, b.ptr - HEADER, header);
    HeaderRoundTrip(b.size);
    forall i | 0 <= i < |live|
      ensures HeaderOf(m', live[i].ptr) == live[i].size
    {
      assert Disjoint(live[i], b) && InSpace(live[i]);
      forall a: nat | live[i].ptr - HEADER <= a < live[i].ptr
        ensures ByteAt(m', a) == ByteAt(m, a)
      {
        StoreElsewhere(m, b.ptr - HEADER, header, a);
      }
      SameHeader(m, m', live[i].ptr);
    }
  }

  /** A write inside a block disturbs no header. */
  lemma PayloadWritten(m: Memory, live: seq<Block>, i: nat, address: nat, value: nat)
    requires Laid(live) && HeadersKept(m, live)
    requires i < |live| && live[i].ptr <= address < live[i].ptr + live[i].size
    ensures HeadersKept(m[address := value], live)
  {
    forall k | 0 <= k < |live|
      ensures HeaderOf(m[address := value], live[k].ptr) == live[k].size
    {
      assert k < i ==> Disjoint(live[k], live[i]);
      assert i < k ==> Disjoint(live[i], live[k]);
      assert InSpace(live[k]) && InSpace(live[i]);
      SameHeader(m, m[address := value], live[k].ptr);
    }
  }
}
