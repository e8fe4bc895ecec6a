/**
 * The first-fit, coalescing allocator of sw/os/mem.c: a linked list of block
 * descriptors taken from a fixed pool, split and merged in place.
 */
module Mem {
  import opened Words

  const MEM_BASE: int := 0x4000_0000
  const MAX_BLOCKS: int := 256
  const ALIGNMENT: int := 4096
  const MIN_BLOCK_SIZE: int := 32768

  // ----- the pool as a value

  /** A stretch of the pool. */
  datatype Extent = Extent(start: uint32, size: uint32, used: bool) {
    function End(): int { start + size }
  }

  /** The block list in order, and the number of descriptors taken so far. */
  datatype Pool = Pool(list: seq<Extent>, taken: nat)

  function Aligned(x: int): bool { x % 0x1000 == 0 }

  /** Block `i` starts where its predecessor ends. */
  ghost predicate Abuts(list: seq<Extent>, i: int)
    requires 0 < i < |list|
  {
    list[i].start == list[i - 1].End()
  }

  /** Block `i` and its predecessor are not both free. */
  ghost predicate Separated(list: seq<Extent>, i: int)
    requires 0 < i < |list|
  {
    list[i - 1].used || list[i].used
  }

  /** The list covers [MEM_BASE, MEM_BASE + total) without gap or overlap, in aligned, nonempty blocks. */
  ghost predicate Tiles(list: seq<Extent>, total: int) {
    && |list| > 0
    && list[0].start == MEM_BASE && list[|list| - 1].End() == MEM_BASE + total
    && (forall i | 0 <= i < |list| :: list[i].size > 0 && Aligned(list[i].start) && Aligned(list[i].size))
    && (forall i | 0 < i < |list| :: Abuts(list, i))
  }

  ghost predicate Coalesced(list: seq<Extent>) {
    forall i | 0 < i < |list| :: Separated(list, i)
  }

  /** The invariant of every reachable pool of `total` bytes. */
  ghost predicate Sound(p: Pool, total: int) {
    && MEM_BASE + total < TWO_32
    && Tiles(p.list, total) && Coalesced(p.list)
    && |p.list| <= p.taken <= MAX_BLOCKS
  }

  predicate PoolSize(total: uint32) {
    0 < total && MEM_BASE + total < TWO_32 && Aligned(total)
  }

  function Init(total: uint32): Pool {
    Pool([Extent(MEM_BASE, total, false)], 1)
  }

  /** k_mem_align_up for the allocator's power-of-two alignment, with its 32-bit wrap. */
  function AlignUp(x: uint32): uint32 {
    Wrap32(x + ALIGNMENT - 1) / 0x1000 * 0x1000
  }

  /** The size a request is rounded to. */
  function Need(size: uint32): uint32 {
    if AlignUp(size) < MIN_BLOCK_SIZE then MIN_BLOCK_SIZE else AlignUp(size)
  }

  /** The first free block at or after `i` that holds `need` bytes, or the length of the list. */
  function FirstFit(list: seq<Extent>, need: int, i: nat): (r: nat)
    requires i <= |list|
    ensures i <= r <= |list|
    ensures forall j | i <= j < r :: list[j].used || list[j].size < need
    ensures r < |list| ==> !list[r].used && list[r].size >= need
    decreases |list| - i
  {
    if i == |list| || (!list[i].used && list[i].size >= need) then i else FirstFit(list, need, i + 1)
  }

  /** Block `i` split into a used block of `need` bytes and a free remainder. */
  function Split(list: seq<Extent>, i: nat, need: uint32): seq<Extent>
    requires i < |list| && need < list[i].size
  {
    list[..i] + [Extent(list[i].start, need, true), Extent(Wrap32(list[i].start + need), list[i].size - need, false)]
      + list[i + 1..]
  }

  /** k_mem_alloc */
  function Alloc(p: Pool, size: uint32): (Pool, Option<uint32>) {
    var need := Need(size);
    var i := FirstFit(p.list, need, 0);
    if i == |p.list| then (p, None)
    else if p.list[i].size == need then
      (p.(list := p.list[i := p.list[i].(used := true)]), Some(p.list[i].start))
    else if p.taken >= MAX_BLOCKS then (p, None)
    else (Pool(Split(p.list, i, need), p.taken + 1), Some(p.list[i].start))
  }

  /** The first used block that starts at `addr`, at or after `i`. */
  function Find(list: seq<Extent>, addr: uint32, i: nat): (r: nat)
    requires i <= |list|
    ensures i <= r <= |list|
    ensures forall j | i <= j < r :: !(list[j].used && list[j].start == addr)
    ensures r < |list| ==> list[r].used && list[r].start == addr
    decreases |list| - i
  {
    if i == |list| || (list[i].used && list[i].start == addr) then i else Find(list, addr, i + 1)
  }

  /** Blocks `i` and `i + 1` become one, with the flag of the first. */
  function Merge(list: seq<Extent>, i: nat): seq<Extent>
    requires i + 1 < |list|
  {
    list[..i] + [list[i].(size := Wrap32(list[i].size + list[i + 1].size))] + list[i + 2..]
  }

  function MergeIfFree(list: seq<Extent>, i: int): seq<Extent>
  {
    if 0 <= i && i + 1 < |list| && !list[i].used && !list[i + 1].used then Merge(list, i) else list
  }

  // ----- what one operation keeps

  lemma {:induction false} TilesOrdered(list: seq<Extent>, total: int, i: nat, j: nat)
    requires Tiles(list, total) && i < j < |list|
    ensures list[i].End() <= list[j].start
  {
    assert Abuts(list, j);
    if i < j - 1 {
      TilesOrdered(list, total, i, j - 1);
    }
  }

  lemma TilesInside(list: seq<Extent>, total: int, i: nat)
    requires Tiles(list, total) && i < |list|
    ensures MEM_BASE <= list[i].start && list[i].End() <= MEM_BASE + total
  {
    if 0 < i { TilesOrdered(list, total, 0, i); }
    if i < |list| - 1 { TilesOrdered(list, total, i, |list| - 1); }
  }

  lemma SoundEnds(p: Pool, total: int)
    requires Sound(p, total)
    ensures forall e | e in p.list :: MEM_BASE <= e.start && e.End() <= MEM_BASE + total < TWO_32
  {
    forall i | 0 <= i < |p.list| ensures MEM_BASE <= p.list[i].start && p.list[i].End() <= MEM_BASE + total {
      TilesInside(p.list, total, i);
    }
  }

  lemma NeighboursFit(list: seq<Extent>, total: int, i: nat)
    requires Tiles(list, total) && MEM_BASE + total < TWO_32 && i + 1 < |list|
    ensures list[i].size as int + list[i + 1].size < TWO_32
  {
    TilesInside(list, total, i);
    TilesInside(list, total, i + 1);
    assert Abuts(list, i + 1);
  }

  lemma AlignUpIsAligned(x: uint32)
    ensures Aligned(AlignUp(x))
  {
  }

  lemma NeedIsAligned(size: uint32)
    ensures Aligned(Need(size)) && Need(size) >= MIN_BLOCK_SIZE
  {
  }

  /**
   * The rounded size holds the request exactly when rounding does not pass
   * 2^32; beyond that the sum wraps and the caller gets a minimal block.
   */
  lemma NeedCovers(size: uint32)
    ensures Need(size) >= size <==> size <= TWO_32 - ALIGNMENT
  {
  }

  /** For instance a request of 2^32 - 4095 bytes is granted 32768 bytes of a fresh pool. */
  lemma WrappedRequestGetsSmallBlock(total: uint32)
    requires PoolSize(total) && total >= MIN_BLOCK_SIZE
    ensures var (q, r) := Alloc(Init(total), 0xFFFF_F001);
            r == Some(MEM_BASE) && q.list[0] == Extent(MEM_BASE, MIN_BLOCK_SIZE, true)
  {
    assert Need(0xFFFF_F001) == MIN_BLOCK_SIZE;
    assert FirstFit(Init(total).list, MIN_BLOCK_SIZE, 0) == 0;
  }

  lemma MarkKeepsTiles(list: seq<Extent>, total: int, i: nat, used: bool)
    requires Tiles(list, total) && i < |list|
    ensures Tiles(list[i := list[i].(used := used)], total)
  {
    var after := list[i := list[i].(used := used)];
    forall k | 0 < k < |after| ensures Abuts(after, k) {
      assert Abuts(list, k);
    }
  }

  lemma AlignedSums(a: int, b: int)
    requires Aligned(a) && Aligned(b)
    ensures Aligned(a + b) && Aligned(a - b)
  {
  }

  lemma SplitKeepsTiles(list: seq<Extent>, total: int, i: nat, need: uint32)
    requires Tiles(list, total) && i < |list| && 0 < need < list[i].size && Aligned(need) && list[i].End() < TWO_32
    ensures Tiles(Split(list, i, need), total)
  {
    var s := Split(list, i, need);
    AlignedSums(list[i].start, need);
    AlignedSums(list[i].size, need);
    forall k | 0 < k < |s| ensures Abuts(s, k) {
      if k <= i {
        assert Abuts(list, k);
      } else if k > i + 1 {
        assert s[k] == list[k - 1] && Abuts(list, k - 1);
      }
    }
    forall k | 0 <= k < |s| ensures s[k].size > 0 && Aligned(s[k].start) && Aligned(s[k].size) {
      assert k > i + 1 ==> s[k] == list[k - 1];
    }
  }

  lemma MergeKeepsTiles(list: seq<Extent>, total: int, i: nat)
    requires Tiles(list, total) && i + 1 < |list| && list[i].size as int + list[i + 1].size < TWO_32
    ensures Tiles(Merge(list, i), total)
  {
    var m := Merge(list, i);
    assert Abuts(list, i + 1);
    forall k | 0 < k < |m| ensures Abuts(m, k) {
      if k <= i {
        assert Abuts(list, k);
      } else {
        assert m[k] == list[k + 1] && Abuts(list, k + 1);
      }
    }
    forall k | 0 <= k < |m| ensures m[k].size > 0 && Aligned(m[k].start) && Aligned(m[k].size) {
      assert k > i ==> m[k] == list[k + 1];
    }
  }

  lemma AllocKeepsSound(p: Pool, total: int, size: uint32)
    requires Sound(p, total)
    ensures Sound(Alloc(p, size).0, total)
  {
    SoundEnds(p, total);
    var need, i := Need(size), FirstFit(p.list, Need(size), 0);
    NeedIsAligned(size);
    if i < |p.list| {
      if p.list[i].size == need {
        MarkKeepsTiles(p.list, total, i, true);
        MarkUsedKeepsCoalesced(p.list, i);
      } else if p.taken < MAX_BLOCKS {
        SplitKeepsTiles(p.list, total, i, need);
        SplitKeepsCoalesced(p.list, i, need);
      }
    }
  }

  lemma MarkUsedKeepsCoalesced(list: seq<Extent>, i: nat)
    requires i < |list| && Coalesced(list)
    ensures Coalesced(list[i := list[i].(used := true)])
  {
    var after := list[i := list[i].(used := true)];
    forall k | 0 < k < |after| ensures Separated(after, k) {
      assert Separated(list, k);
    }
  }

  lemma SplitKeepsCoalesced(list: seq<Extent>, i: nat, need: uint32)
    requires i < |list| && need < list[i].size && !list[i].used && Coalesced(list)
    ensures Coalesced(Split(list, i, need))
  {
    var s := Split(list, i, need);
    forall k | 0 < k < |s| ensures Separated(s, k) {
      if k < i {
        assert Separated(list, k);
      } else if k > i + 1 {
        assert s[k] == list[k - 1] && Separated(list, k - 1);
      }
    }
  }

  /** k_mem_free: an address that starts no used block is ignored. */
  function Free(p: Pool, addr: uint32): Pool {
    var i := Find(p.list, addr, 0);
    if i == |p.list| then p
    else
      var freed := p.list[i := p.list[i].(used := false)];
      p.(list := MergeIfFree(MergeIfFree(freed, i), i - 1))
  }

  /** No two adjacent free blocks, except possibly around block `i`. */
  ghost predicate CoalescedExcept(list: seq<Extent>, i: int, lo: bool, hi: bool) {
    forall k | 0 < k < |list| && !(lo && k == i) && !(hi && k == i + 1) :: Separated(list, k)
  }

  lemma MergeIfFreeKeepsTiles(list: seq<Extent>, total: int, i: int)
    requires Tiles(list, total) && MEM_BASE + total < TWO_32
    ensures Tiles(MergeIfFree(list, i), total) && |MergeIfFree(list, i)| <= |list|
  {
    if 0 <= i && i + 1 < |list| {
      NeighboursFit(list, total, i);
      if !list[i].used && !list[i + 1].used {
        MergeKeepsTiles(list, total, i);
      }
    }
  }

  lemma MergeUpCoalesces(list: seq<Extent>, i: nat)
    requires i < |list| && CoalescedExcept(list, i, true, true)
    ensures CoalescedExcept(MergeIfFree(list, i), i, true, false)
  {
    var m := MergeIfFree(list, i);
    forall k | 0 < k < |m| && k != i ensures Separated(m, k) {
      if m == list || k < i {
        if k != i + 1 { assert Separated(list, k); }
      } else {
        assert m[k] == list[k + 1] && Separated(list, k + 1);
      }
    }
  }

  lemma MergeDownCoalesces(list: seq<Extent>, i: nat)
    requires i < |list| && CoalescedExcept(list, i, true, false)
    ensures Coalesced(MergeIfFree(list, i - 1))
  {
    var m := MergeIfFree(list, i - 1);
    forall k | 0 < k < |m| ensures Separated(m, k) {
      if m == list || k < i {
        if k != i { assert Separated(list, k); }
      } else {
        assert m[k] == list[k + 1] && Separated(list, k + 1);
      }
    }
  }

  lemma FreedCoalescedExcept(list: seq<Extent>, i: nat)
    requires i < |list| && Coalesced(list)
    ensures CoalescedExcept(list[i := list[i].(used := false)], i, true, true)
  {
    var after := list[i := list[i].(used := false)];
    forall k | 0 < k < |after| && k != i && k != i + 1 ensures Separated(after, k) {
      assert Separated(list, k);
    }
  }

  lemma FreeKeepsSound(p: Pool, total: int, addr: uint32)
    requires Sound(p, total)
    ensures Sound(Free(p, addr), total)
  {
    var i := Find(p.list, addr, 0);
    if i < |p.list| {
      var freed := p.list[i := p.list[i].(used := false)];
      MarkKeepsTiles(p.list, total, i, false);
      MergeIfFreeKeepsTiles(freed, total, i);
      FreedCoalescedExcept(p.list, i);
      MergeUpCoalesces(freed, i);
      var up := MergeIfFree(freed, i);
      MergeIfFreeKeepsTiles(up, total, i - 1);
      MergeDownCoalesces(up, i);
    }
  }

  // ----- ownership: what the callers hold

  /** The blocks in use. */
  ghost function Live(p: Pool): set<Extent> {
    set e | e in p.list && e.used
  }

  /** Blocks in use never overlap. */
  lemma LiveDisjoint(p: Pool, total: int, e: Extent, f: Extent)
    requires Sound(p, total) && e in Live(p) && f in Live(p) && e != f
    ensures e.End() <= f.start || f.End() <= e.start
  {
    var i :| 0 <= i < |p.list| && p.list[i] == e;
    var j :| 0 <= j < |p.list| && p.list[j] == f;
    if i < j {
      TilesOrdered(p.list, total, i, j);
    } else {
      TilesOrdered(p.list, total, j, i);
    }
  }

  lemma LiveNonempty(p: Pool, total: int, e: Extent)
    requires Sound(p, total) && e in Live(p)
    ensures e.size > 0
  {
  }

  /**
   * A successful allocation adds exactly one live block, of the rounded size,
   * overlapping none of the others; a failed one changes nothing at all.
   */
  lemma AllocLive(p: Pool, total: int, size: uint32)
    requires Sound(p, total)
    ensures var (q, r) := Alloc(p, size);
            match r
            case None => q == p
            case Some(a) =>
              && Live(q) == Live(p) + {Extent(a, Need(size), true)}
              && Extent(a, Need(size), true) !in Live(p)
              && Aligned(a) && MEM_BASE <= a && a + Need(size) <= MEM_BASE + total
              && forall e | e in Live(p) :: e.End() <= a || a + Need(size) <= e.start
  {
    var need, i := Need(size), FirstFit(p.list, Need(size), 0);
    var (q, r) := Alloc(p, size);
    if r.Some? {
      SoundEnds(p, total);
      AllocKeepsSound(p, total, size);
      var fresh_ := Extent(r.value, need, true);
      if p.list[i].size == need {
        LiveOfUpdate(p.list, i, fresh_);
      } else {
        LiveOfSplit(p.list, i, need);
      }
      assert fresh_ in Live(q) && fresh_ in q.list;
      forall e | e in Live(p)
        ensures e.End() <= r.value || r.value + need <= e.start
      {
        var j :| 0 <= j < |p.list| && p.list[j] == e;
        if j < i { TilesOrdered(p.list, total, j, i); } else { TilesOrdered(p.list, total, i, j); }
      }
      var k :| 0 <= k < |q.list| && q.list[k] == fresh_;
      TilesInside(q.list, total, k);
    }
  }

  lemma LiveOfUpdate(list: seq<Extent>, i: nat, e: Extent)
    requires i < |list| && !list[i].used && e.used
    ensures (set x | x in list[i := e] && x.used) == (set x | x in list && x.used) + {e}
  {
    var after := list[i := e];
    forall x | x in list && x.used ensures x in after {
      var j :| 0 <= j < |list| && list[j] == x;
      assert after[j] == x;
    }
    assert after[i] == e;
  }

  lemma LiveOfSplit(list: seq<Extent>, i: nat, need: uint32)
    requires i < |list| && need < list[i].size && !list[i].used
    ensures (set x | x in Split(list, i, need) && x.used)
            == (set x | x in list && x.used) + {Extent(list[i].start, need, true)}
  {
  }

  /** Freeing removes exactly the live block that starts at `addr`, if there is one. */
  lemma FreeLive(p: Pool, total: int, addr: uint32)
    requires Sound(p, total)
    ensures Live(Free(p, addr)) == set e | e in Live(p) && e.start != addr
  {
    var i := Find(p.list, addr, 0);
    if i < |p.list| {
      var freed := p.list[i := p.list[i].(used := false)];
      LiveOfMerge(freed, i);
      LiveOfMerge(MergeIfFree(freed, i), i - 1);
      assert Live(Free(p, addr)) == set e | e in freed && e.used;
      forall e ensures e in Live(Free(p, addr)) <==> e in Live(p) && e.start != addr {
        LiveAfterMark(p.list, total, i, e);
      }
    }
  }

  lemma LiveAfterMark(list: seq<Extent>, total: int, i: nat, e: Extent)
    requires Tiles(list, total) && i < |list| && list[i].used
    ensures e in list[i := list[i].(used := false)] && e.used <==> e in list && e.used && e.start != list[i].start
  {
    var freed := list[i := list[i].(used := false)];
    if e in list && e.used && e.start != list[i].start {
      var j :| 0 <= j < |list| && list[j] == e;
      assert freed[j] == e;
    }
    if e in freed && e.used {
      var j :| 0 <= j < |freed| && freed[j] == e;
      assert list[j] == e;
      StartsDiffer(list, total, i, j);
    }
  }

  lemma StartsDiffer(list: seq<Extent>, total: int, i: nat, j: nat)
    requires Tiles(list, total) && i < |list| && j < |list| && i != j
    ensures list[i].start != list[j].start
  {
    if i < j { TilesOrdered(list, total, i, j); } else { TilesOrdered(list, total, j, i); }
  }

  lemma LiveOfMerge(list: seq<Extent>, i: int)
    ensures (set x | x in MergeIfFree(list, i) && x.used) == (set x | x in list && x.used)
  {
  }

  /** With nothing in use, the list is one free block again. */
  lemma NothingLiveIsOneFreeBlock(p: Pool, total: int)
    requires Sound(p, total) && Live(p) == {}
    ensures |p.list| == 1 && p.list[0].start == MEM_BASE && p.list[0].size == total && !p.list[0].used
  {
    assert forall e | e in p.list :: e.used ==> e in Live(p);
    if |p.list| > 1 {
      FirstTwoSeparated(p.list);
    }
  }

  lemma FirstTwoSeparated(list: seq<Extent>)
    requires Coalesced(list) && |list| > 1
    ensures list[0].used || list[1].used
  {
    assert Separated(list, 1);
  }

  // ----- whole runs

  datatype Op = DoAlloc(size: uint32) | DoFree(addr: uint32)

  function Step(p: Pool, op: Op): Pool {
    match op
    case DoAlloc(size) => Alloc(p, size).0
    case DoFree(addr) => Free(p, addr)
  }

  function Run(p: Pool, ops: seq<Op>): Pool
    decreases |ops|
  {
    if ops == [] then p else Run(Step(p, ops[0]), ops[1..])
  }

  lemma InitSound(total: uint32)
    requires PoolSize(total)
    ensures Sound(Init(total), total) && Live(Init(total)) == {}
  {
  }

  lemma {:induction false} RunKeepsSound(p: Pool, total: int, ops: seq<Op>)
    requires Sound(p, total)
    ensures Sound(Run(p, ops), total)
    decreases |ops|
  {
    if ops != [] {
      match ops[0] {
        case DoAlloc(size) => AllocKeepsSound(p, total, size);
        case DoFree(addr) => FreeKeepsSound(p, total, addr);
      }
      RunKeepsSound(Step(p, ops[0]), total, ops[1..]);
    }
  }

  /**
   * After any sequence of allocations and frees the pool is tiled, coalesced
   * and within its descriptors, and once nothing is in use it is whole again.
   */
  lemma EveryRun(total: uint32, ops: seq<Op>)
    requires PoolSize(total)
    ensures var p := Run(Init(total), ops);
            && Sound(p, total)
            && (Live(p) == {} ==> p.list == [Extent(MEM_BASE, total, false)])
  {
    InitSound(total);
    RunKeepsSound(Init(total), total, ops);
    var p := Run(Init(total), ops);
    if Live(p) == {} {
      NothingLiveIsOneFreeBlock(p, total);
    }
  }

  ghost predicate FirstFitNeedsSplit(list: seq<Extent>, need: int) {
    exists i | 0 <= i < |list| ::
      && !list[i].used && list[i].size > need
      && forall j | 0 <= j < i :: list[j].used || list[j].size < need
  }

  /** An allocation fails exactly when nothing fits, or when the first fit needs a split and no descriptor is left. */
  lemma AllocFailsExactlyWhen(p: Pool, size: uint32)
    ensures Alloc(p, size).1 == None <==>
            || (forall e | e in p.list :: e.used || e.size < Need(size))
            || (p.taken >= MAX_BLOCKS && FirstFitNeedsSplit(p.list, Need(size)))
  {
  }

  // ----- the linked list

  /** One descriptor of mem_blocks[]; `next` is the index of the following one, or NULL. */
  datatype Descriptor = Descriptor(extent: Extent, next: int)

  const NULL: int := -1

  /** The descriptor at position `i` of a chain, NULL past its end. */
  ghost function Link(chain: seq<int>, i: int): int
    requires 0 <= i <= |chain|
  {
    if i < |chain| then chain[i] else NULL
  }

  /** The descriptor at position `i` describes its block and points to the one at `i + 1`. */
  ghost predicate LinkAt(descs: seq<Descriptor>, chain: seq<int>, list: seq<Extent>, i: int)
    requires 0 <= i < |chain| == |list| && 0 <= chain[i] < |descs|
  {
    descs[chain[i]] == Descriptor(list[i], Link(chain, i + 1))
  }

  /** Following `next` from `chain[0]` visits the descriptors of `chain`, which describe `list`. */
  ghost predicate Links(descs: seq<Descriptor>, chain: seq<int>, list: seq<Extent>, taken: int) {
    && |list| == |chain| && 0 <= taken <= |descs|
    && (forall i | 0 <= i < |chain| :: 0 <= chain[i] < taken)
    && (forall i | 0 <= i < |chain| :: LinkAt(descs, chain, list, i))
    && Distinct(chain)
  }

  ghost predicate Distinct(chain: seq<int>) {
    forall i, j | 0 <= i < j < |chain| :: chain[i] != chain[j]
  }

  lemma DistinctInsert(chain: seq<int>, i: int, x: int)
    requires Distinct(chain) && 0 <= i <= |chain| && x !in chain
    ensures Distinct(chain[..i] + [x] + chain[i..])
  {
  }

  lemma DistinctRemove(chain: seq<int>, i: int)
    requires Distinct(chain) && 0 <= i < |chain|
    ensures Distinct(chain[..i] + chain[i + 1..])
  {
  }

  lemma LinksAfterUpdate(descs: seq<Descriptor>, chain: seq<int>, list: seq<Extent>, taken: int, i: int, e: Extent)
    requires Links(descs, chain, list, taken) && 0 <= i < |chain|
    ensures Links(descs[chain[i] := descs[chain[i]].(extent := e)], chain, list[i := e], taken)
  {
    var after := descs[chain[i] := descs[chain[i]].(extent := e)];
    var list' := list[i := e];
    forall k | 0 <= k < |chain| ensures LinkAt(after, chain, list', k) {
      assert LinkAt(descs, chain, list, k);
    }
  }

  lemma LinksAfterSplit(descs: seq<Descriptor>, chain: seq<int>, list: seq<Extent>, taken: int, i: int, e: Extent,
      rest: Extent)
    requires Links(descs, chain, list, taken) && 0 <= i < |chain| && taken < |descs|
    ensures Links(descs[taken := Descriptor(rest, descs[chain[i]].next)][chain[i] := Descriptor(e, taken)],
                  chain[..i + 1] + [taken] + chain[i + 1..], list[..i] + [e, rest] + list[i + 1..], taken + 1)
  {
    var after := descs[taken := Descriptor(rest, descs[chain[i]].next)][chain[i] := Descriptor(e, taken)];
    var chain', list' := chain[..i + 1] + [taken] + chain[i + 1..], list[..i] + [e, rest] + list[i + 1..];
    assert LinkAt(descs, chain, list, i);
    forall k | 0 <= k < |chain'| ensures 0 <= chain'[k] < taken + 1 && LinkAt(after, chain', list', k) {
      if k > i + 1 {
        assert chain'[k] == chain[k - 1] && LinkAt(descs, chain, list, k - 1);
      } else if k < i {
        assert chain'[k] == chain[k] && LinkAt(descs, chain, list, k);
      }
    }
    DistinctInsert(chain, i + 1, taken);
  }

  lemma LinksAfterMerge(descs: seq<Descriptor>, chain: seq<int>, list: seq<Extent>, taken: int, i: int, e: Extent)
    requires Links(descs, chain, list, taken) && 0 <= i && i + 1 < |chain|
    ensures Links(descs[chain[i] := Descriptor(e, descs[chain[i + 1]].next)],
                  chain[..i + 1] + chain[i + 2..], list[..i] + [e] + list[i + 2..], taken)
  {
    var after := descs[chain[i] := Descriptor(e, descs[chain[i + 1]].next)];
    var chain', list' := chain[..i + 1] + chain[i + 2..], list[..i] + [e] + list[i + 2..];
    assert LinkAt(descs, chain, list, i + 1);
    forall k | 0 <= k < |chain'| ensures 0 <= chain'[k] < taken && LinkAt(after, chain', list', k) {
      if k > i {
        assert chain'[k] == chain[k + 1] && LinkAt(descs, chain, list, k + 1);
      } else if k < i {
        assert chain'[k] == chain[k] && LinkAt(descs, chain, list, k);
      }
    }
    DistinctRemove(chain, i + 1);
  }

  class Allocator {
    const blocks: array<Descriptor>  // mem_blocks
    var taken: int                   // mem_block_count
    var head: int                    // block_list
    ghost var chain: seq<int>        // the descriptors in list order
    ghost var list: seq<Extent>      // and what they describe
    ghost var total: int

    ghost predicate Linked()
      reads this, blocks
    {
      && blocks.Length == MAX_BLOCKS && head == Link(chain, 0)
      && Links(blocks[..], chain, list, taken)
    }

    ghost function View(): Pool
      reads this
      requires 0 <= taken
    {
      Pool(list, taken)
    }

    ghost predicate Valid()
      reads this, blocks
    {
      Linked() && Sound(View(), total)
    }

    constructor ()
      ensures fresh(blocks) && blocks.Length == MAX_BLOCKS
    {
      blocks := new Descriptor[MAX_BLOCKS](i => Descriptor(Extent(0, 0, false), NULL));
      taken, head, chain, list := 0, NULL, [], [];
    }

    /** k_mem_init */
    method Initialize(totalSize: uint32)
      requires blocks.Length == MAX_BLOCKS && PoolSize(totalSize)
      modifies this, blocks
      ensures Valid() && total == totalSize && View() == Init(totalSize)
    {
      blocks[0] := Descriptor(Extent(MEM_BASE, totalSize, false), NULL);
      taken, head := 1, 0;
      chain, list, total := [0], [Extent(MEM_BASE, totalSize, false)], totalSize;
      InitSound(totalSize);
    }

    /** Rewrites the extent of one block. */
    method SetExtent(blk: int, ghost i: int, e: Extent)
      requires Linked() && 0 <= i < |chain| && blk == chain[i]
      modifies this`list, blocks
      ensures Linked() && list == old(list)[i := e]
    {
      LinksAfterUpdate(blocks[..], chain, list, taken, i, e);
      blocks[blk] := blocks[blk].(extent := e);
      list := list[i := e];
    }

    /** Links a new descriptor for the rest of a block behind it (sw/os/mem.c:116-127). */
    method SplitBlock(blk: int, ghost i: int, size: uint32)
      requires Linked() && 0 <= i < |chain| && blk == chain[i]
      requires taken < MAX_BLOCKS && size < list[i].size
      modifies this`list, this`chain, this`taken, blocks
      ensures Linked() && taken == old(taken) + 1
      ensures |chain| == old(|chain|) + 1 && chain[i] == blk
      ensures list == old(list[..i] + [list[i].(size := size),
                      Extent(Wrap32(list[i].start + size), list[i].size - size, false)] + list[i + 1..])
    {
      assert LinkAt(blocks[..], chain, list, i);
      var e, rem := blocks[blk].extent, taken;
      var rest := Extent(Wrap32(e.start + size), e.size - size, false);
      LinksAfterSplit(blocks[..], chain, list, taken, i, e.(size := size), rest);
      taken := taken + 1;
      blocks[rem] := Descriptor(rest, blocks[blk].next);
      blocks[blk] := Descriptor(e.(size := size), rem);
      chain := chain[..i + 1] + [rem] + chain[i + 1..];
      list := list[..i] + [e.(size := size), rest] + list[i + 1..];
    }

    /** The coalescing step of k_mem_free: absorbs the next block when both are free. */
    method MergeWithNext(blk: int, ghost i: int)
      requires Linked() && 0 <= i < |chain| && blk == chain[i]
      modifies this`chain, this`list, blocks
      ensures Linked() && list == MergeIfFree(old(list), i)
      ensures |chain| > i && chain[..i + 1] == old(chain[..i + 1])
    {
      var e, next := blocks[blk].extent, blocks[blk].next;
      assert LinkAt(blocks[..], chain, list, i);
      assert i + 1 < |chain| ==> LinkAt(blocks[..], chain, list, i + 1);
      if next != NULL && !e.used && !blocks[next].extent.used {
        var f := blocks[next];
        var joined := e.(size := Wrap32(e.size + f.extent.size));
        LinksAfterMerge(blocks[..], chain, list, taken, i, joined);
        blocks[blk] := Descriptor(joined, f.next);
        chain := chain[..i + 1] + chain[i + 2..];
        list := Merge(list, i);
      }
    }

    /** Takes a fitting block, splitting it when it is larger than needed (sw/os/mem.c:115-130). */
    method UseBlock(blk: int, ghost i: int, size: uint32) returns (ok: bool)
      requires Linked() && 0 <= i < |chain| && blk == chain[i] && size <= list[i].size
      modifies this`list, this`chain, this`taken, blocks
      ensures Linked()
      ensures ok <==> old(list[i].size) == size || old(taken) < MAX_BLOCKS
      ensures !ok ==> list == old(list) && taken == old(taken)
      ensures ok && old(list[i].size) == size ==> list == old(list[i := list[i].(used := true)]) && taken == old(taken)
      ensures ok && old(list[i].size) > size ==> list == Split(old(list), i, size) && taken == old(taken) + 1
    {
      assert LinkAt(blocks[..], chain, list, i);
      if blocks[blk].extent.size > size {
        if taken >= MAX_BLOCKS {
          return false;
        }
        SplitBlock(blk, i, size);
        assert LinkAt(blocks[..], chain, list, i);
      }
      SetExtent(blk, i, blocks[blk].extent.(used := true));
      ok := true;
      if old(list[i].size) > size {
        assert list == Split(old(list), i, size);
      }
    }

    /** k_mem_alloc; the padding it computes is zero because every block starts aligned. */
    method Allocate(request: uint32) returns (r: Option<uint32>)
      requires Valid()
      modifies this, blocks
      ensures Valid() && total == old(total)
      ensures (View(), r) == Alloc(old(View()), request)
    {
      ghost var before := View();
      var size := Need(request);
      var blk := head;
      ghost var i := 0;
      while blk != NULL
        invariant Linked() && View() == before && total == old(total)
        invariant 0 <= i <= |chain| && blk == Link(chain, i)
        invariant FirstFit(list, size, 0) == FirstFit(list, size, i)
        decreases |chain| - i
      {
        assert LinkAt(blocks[..], chain, list, i);
        var e := blocks[blk].extent;
        if !e.used {
          StartIsAligned(before, total, i);
          var padding := AlignUp(e.start) - e.start;
          assert padding == 0;
          if e.size >= size + padding {
            AllocKeepsSound(before, total, request);
            var ok := UseBlock(blk, i, size);
            return if ok then Some(e.start) else None;
          }
        }
        blk := blocks[blk].next;
        i := i + 1;
      }
      return None;
    }

    /** Frees a block and coalesces it with both neighbours (sw/os/mem.c:147-159). */
    method FreeBlock(blk: int, prev: int, ghost i: int)
      requires Linked() && 0 <= i < |chain| && blk == chain[i] && prev == if i == 0 then NULL else chain[i - 1]
      modifies this`list, this`chain, blocks
      ensures Linked()
      ensures list == MergeIfFree(MergeIfFree(old(list[i := list[i].(used := false)]), i), i - 1)
    {
      assert LinkAt(blocks[..], chain, list, i);
      SetExtent(blk, i, blocks[blk].extent.(used := false));
      MergeWithNext(blk, i);
      if prev != NULL {
        assert chain[i - 1] == chain[..i + 1][i - 1];
        MergeWithNext(prev, i - 1);
      }
    }

    /** The search loop of k_mem_free: the used block at `addr`, and the one before it. */
    method FindUsed(addr: uint32) returns (blk: int, prev: int)
      requires Linked()
      ensures var i := Find(list, addr, 0);
              blk == Link(chain, i) && prev == if i == 0 then NULL else chain[i - 1]
    {
      ghost var i := 0;
      blk, prev := head, NULL;
      while blk != NULL
        invariant i <= |chain| && blk == Link(chain, i) && prev == if i == 0 then NULL else chain[i - 1]
        invariant Find(list, addr, 0) == Find(list, addr, i)
        decreases |chain| - i
      {
        assert LinkAt(blocks[..], chain, list, i);
        var e := blocks[blk].extent;
        if e.used && e.start == addr {
          return;
        }
        prev := blk;
        blk := blocks[blk].next;
        i := i + 1;
      }
    }

    /** k_mem_free */
    method Release(addr: uint32)
      requires Valid()
      modifies this, blocks
      ensures Valid() && total == old(total)
      ensures View() == Free(old(View()), addr)
    {
      FreeKeepsSound(View(), total, addr);
      var blk, prev := FindUsed(addr);
      if blk != NULL {
        FreeBlock(blk, prev, Find(list, addr, 0));
      }
    }
  }

  lemma StartIsAligned(p: Pool, total: int, i: int)
    requires Sound(p, total) && 0 <= i < |p.list|
    ensures AlignUp(p.list[i].start) == p.list[i].start
  {
  }
}
