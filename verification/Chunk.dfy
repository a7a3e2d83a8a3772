// struct Chunk of library/SmallObject.h: equal blocks in one byte array, the
// free ones chained through the first byte of each.

module FreeLists {
  import opened Sequences

  type Byte = x: int | 0 <= x < 256   // unsigned char

  // Where block b starts.
  function Start(b: nat, blockSize: nat): nat {
    b * blockSize
  }

  lemma BlockInRange(b: nat, blockSize: nat, blocks: nat)
    requires b < blocks
    ensures Start(b, blockSize) + blockSize <= blockSize * blocks
  {
    assert (b + 1) * blockSize <= blocks * blockSize;
  }

  lemma NextStart(b: nat, blockSize: nat)
    ensures Start(b + 1, blockSize) == Start(b, blockSize) + blockSize
  {
  }

  lemma BlocksApart(a: nat, b: nat, blockSize: nat, offset: nat)
    requires a != b && offset < blockSize
    ensures Start(a, blockSize) != Start(b, blockSize) + offset
  {
    if a < b {
      assert (a + 1) * blockSize <= b * blockSize;
    } else {
      assert (b + 1) * blockSize <= a * blockSize;
    }
  }

  // The blocks met by following the stored bytes for n steps.
  ghost function Follow(data: seq<Byte>, blockSize: nat, blocks: nat, first: nat, n: nat): seq<nat>
    requires blockSize > 0 && |data| == blockSize * blocks
    decreases n
  {
    if n == 0 || first >= blocks then []
    else
      BlockInRange(first, blockSize, blocks);
      [first] + Follow(data, blockSize, blocks, data[Start(first, blockSize)], n - 1)
  }

  // Bytes outside the first bytes of the blocks met do not matter.
  lemma {:induction false} FollowSame(data: seq<Byte>, data': seq<Byte>, blockSize: nat, blocks: nat,
                                      first: nat, n: nat)
    requires blockSize > 0 && |data| == |data'| == blockSize * blocks
    requires forall b: nat :: b in Follow(data, blockSize, blocks, first, n) && Start(b, blockSize) < |data| ==>
               data'[Start(b, blockSize)] == data[Start(b, blockSize)]
    ensures Follow(data', blockSize, blocks, first, n) == Follow(data, blockSize, blocks, first, n)
    decreases n
  {
    if n > 0 && first < blocks {
      BlockInRange(first, blockSize, blocks);
      var next := data[Start(first, blockSize)];
      assert Follow(data, blockSize, blocks, first, n) == [first] + Follow(data, blockSize, blocks, next, n - 1);
      assert first in Follow(data, blockSize, blocks, first, n);
      FollowSame(data, data', blockSize, blocks, next, n - 1);
    }
  }

  ghost function Blocks(n: nat): (s: set<nat>)
    ensures |s| == n && forall b: nat :: b in s <==> b < n
  {
    if n == 0 then {} else Blocks(n - 1) + {n - 1}
  }

  // The bytes of block b.
  ghost function BytesOf(data: seq<Byte>, blockSize: nat, blocks: nat, b: nat): (bytes: seq<Byte>)
    requires |data| == blockSize * blocks && b < blocks
    ensures |bytes| == blockSize
  {
    BlockInRange(b, blockSize, blocks);
    data[Start(b, blockSize)..Start(b, blockSize) + blockSize]
  }

  // A byte written into block b changes that byte of b and no other block.
  lemma OneByteWritten(data: seq<Byte>, blockSize: nat, blocks: nat, b: nat, offset: nat, at: nat, v: Byte, c: nat)
    requires |data| == blockSize * blocks && b < blocks && c < blocks && offset < blockSize
    requires at == Start(b, blockSize) + offset < |data|
    ensures BytesOf(data[at := v], blockSize, blocks, c) ==
      var bytes := BytesOf(data, blockSize, blocks, c);
      if c == b then bytes[offset := v] else bytes
  {
    BlockInRange(c, blockSize, blocks);
    forall o | c != b && 0 <= o < blockSize
      ensures BytesOf(data[at := v], blockSize, blocks, c)[o] == BytesOf(data, blockSize, blocks, c)[o]
    {
      ByteApart(b, offset, c, o, blockSize);
    }
  }

  lemma ByteApart(b: nat, o: nat, c: nat, p: nat, blockSize: nat)
    requires b != c && o < blockSize && p < blockSize
    ensures Start(b, blockSize) + o != Start(c, blockSize) + p
  {
    if b < c {
      assert (b + 1) * blockSize <= c * blockSize;
    } else {
      assert (c + 1) * blockSize <= b * blockSize;
    }
  }

  // The free list: n blocks, each free block once and no allocated one.
  ghost predicate FreeList(data: seq<Byte>, blockSize: nat, blocks: nat, first: nat, n: nat, live: set<nat>)
    requires blockSize > 0 && |data| == blockSize * blocks
  {
    var free := Follow(data, blockSize, blocks, first, n);
    && |free| == n
    && NoDuplicates(free)
    && (forall b: nat :: b in free <==> b < blocks && b !in live)
  }

  // Free and allocated blocks together are all blocks.
  lemma FreeCount(data: seq<Byte>, blockSize: nat, blocks: nat, first: nat, n: nat, live: set<nat>)
    requires blockSize > 0 && |data| == blockSize * blocks
    requires FreeList(data, blockSize, blocks, first, n, live) && live <= Blocks(blocks)
    ensures n + |live| == blocks
  {
    var free := Follow(data, blockSize, blocks, first, n);
    DistinctSize(free);
    Partition(Members(free), live, blocks);
  }

  lemma Partition(free: set<nat>, live: set<nat>, blocks: nat)
    requires live <= Blocks(blocks) && forall b: nat :: b in free <==> b < blocks && b !in live
    ensures |free| + |live| == blocks
  {
    assert free !! live;
    assert |free + live| == |free| + |live|;
    assert free + live == Blocks(blocks);
  }

  // An empty list means every block is allocated.
  lemma NoneFree(data: seq<Byte>, blockSize: nat, blocks: nat, first: nat, live: set<nat>)
    requires blockSize > 0 && |data| == blockSize * blocks
    requires FreeList(data, blockSize, blocks, first, 0, live) && live <= Blocks(blocks)
    ensures live == Blocks(blocks)
  {
    FreeCount(data, blockSize, blocks, first, 0, live);
    SameSize(live, Blocks(blocks));
  }

  lemma FirstIsFree(data: seq<Byte>, blockSize: nat, blocks: nat, first: nat, n: nat, live: set<nat>)
    requires blockSize > 0 && |data| == blockSize * blocks && n > 0
    requires FreeList(data, blockSize, blocks, first, n, live)
    ensures first < blocks && first !in live && Start(first, blockSize) < |data|
  {
    assert first < blocks;
    BlockInRange(first, blockSize, blocks);
    assert Follow(data, blockSize, blocks, first, n)[0] == first;
  }

  lemma AllocateKeeps(data: seq<Byte>, blockSize: nat, blocks: nat, first: nat, n: nat, live: set<nat>,
                      next: nat, live': set<nat>)
    requires blockSize > 0 && |data| == blockSize * blocks && n > 0 && Start(first, blockSize) < |data|
    requires FreeList(data, blockSize, blocks, first, n, live)
    requires next == data[Start(first, blockSize)] && live' == live + {first}
    ensures FreeList(data, blockSize, blocks, next, n - 1, live')
    ensures live <= Blocks(blocks) ==> live' <= Blocks(blocks)
  {
    var free := Follow(data, blockSize, blocks, first, n);
    assert first < blocks;
    BlockInRange(first, blockSize, blocks);
    var rest := Follow(data, blockSize, blocks, data[Start(first, blockSize)], n - 1);
    assert free == [first] + rest && free[0] == first;
    assert first in free;
    forall i, j | 0 <= i < j < |rest| ensures rest[i] != rest[j] { assert free[i + 1] != free[j + 1]; }
    forall b: nat ensures b in rest <==> b < blocks && b !in live + {first} {
      if b in rest {
        var i :| 0 <= i < |rest| && rest[i] == b;
        assert free[i + 1] == b && free[0] != free[i + 1];
      }
      assert b in free <==> b == first || b in rest;
    }
  }

  // A write into an allocated block leaves the first bytes of the free ones.
  lemma FreeBytesKept(data: seq<Byte>, blockSize: nat, blocks: nat, first: nat, n: nat, live: set<nat>,
                      b: nat, offset: nat, at: nat, data': seq<Byte>)
    requires blockSize > 0 && |data| == |data'| == blockSize * blocks && b in live && offset < blockSize
    requires FreeList(data, blockSize, blocks, first, n, live)
    requires at == Start(b, blockSize) + offset && forall k :: 0 <= k < |data| && k != at ==> data'[k] == data[k]
    ensures Follow(data', blockSize, blocks, first, n) == Follow(data, blockSize, blocks, first, n)
  {
    var free := Follow(data, blockSize, blocks, first, n);
    forall a: nat | a in free && Start(a, blockSize) < |data|
      ensures data'[Start(a, blockSize)] == data[Start(a, blockSize)]
    {
      OtherByteKept(data, blockSize, a, b, offset, at, data');
    }
    FollowSame(data, data', blockSize, blocks, first, n);
  }

  lemma OtherByteKept(data: seq<Byte>, blockSize: nat, a: nat, b: nat, offset: nat, at: nat, data': seq<Byte>)
    requires a != b && offset < blockSize && at == Start(b, blockSize) + offset
    requires Start(a, blockSize) < |data| == |data'| && forall k :: 0 <= k < |data| && k != at ==> data'[k] == data[k]
    ensures data'[Start(a, blockSize)] == data[Start(a, blockSize)]
  {
    BlocksApart(a, b, blockSize, offset);
  }

  // A list of all free blocks with a released one put in front.
  lemma OneMoreFree(free: seq<nat>, b: nat, blocks: nat, live: set<nat>)
    requires NoDuplicates(free) && b in live && b < blocks
    requires forall a: nat :: a in free <==> a < blocks && a !in live
    ensures NoDuplicates([b] + free)
    ensures forall a: nat :: a in [b] + free <==> a < blocks && a !in live - {b}
  {
    var free' := [b] + free;
    forall i, j | 0 <= i < j < |free'| ensures free'[i] != free'[j] {
      if i == 0 { assert free[j - 1] in free; } else { assert free[i - 1] != free[j - 1]; }
    }
    forall a: nat ensures a in free' <==> a < blocks && a !in live - {b} {
      assert a in free' <==> a == b || a in free;
    }
  }

  lemma DeallocateKeeps(data: seq<Byte>, blockSize: nat, blocks: nat, first: Byte, n: nat, live: set<nat>,
                        b: nat, at: nat, data': seq<Byte>)
    requires blockSize > 0 && |data| == blockSize * blocks && b in live && b < blocks
    requires FreeList(data, blockSize, blocks, first, n, live)
    requires at == Start(b, blockSize) < |data| && data' == data[at := first]
    ensures FreeList(data', blockSize, blocks, b, n + 1, live - {b})
  {
    var free := Follow(data, blockSize, blocks, first, n);
    FreeBytesKept(data, blockSize, blocks, first, n, live, b, 0, at, data');
    assert Follow(data', blockSize, blocks, b, n + 1) == [b] + free;
    OneMoreFree(free, b, blocks, live);
  }

  // Whatever the owner of an allocated block writes into it, the free list stays.
  lemma WriteKeeps(data: seq<Byte>, blockSize: nat, blocks: nat, first: nat, n: nat, live: set<nat>,
                   b: nat, offset: nat, at: nat, data': seq<Byte>)
    requires blockSize > 0 && |data| == |data'| == blockSize * blocks && b in live && offset < blockSize
    requires FreeList(data, blockSize, blocks, first, n, live)
    requires at == Start(b, blockSize) + offset && forall k :: 0 <= k < |data| && k != at ==> data'[k] == data[k]
    ensures FreeList(data', blockSize, blocks, first, n, live)
  {
    FreeBytesKept(data, blockSize, blocks, first, n, live, b, offset, at, data');
  }

  lemma {:induction false} InitialList(data: seq<Byte>, blockSize: nat, blocks: nat, i: nat)
    requires blockSize > 0 && |data| == blockSize * blocks && i <= blocks
    requires forall b: nat :: b < blocks && Start(b, blockSize) < |data| ==> data[Start(b, blockSize)] == b + 1
    ensures var free := Follow(data, blockSize, blocks, i, blocks - i);
      |free| == blocks - i && forall k :: 0 <= k < |free| ==> free[k] == i + k
    decreases blocks - i
  {
    if i < blocks {
      BlockInRange(i, blockSize, blocks);
      InitialList(data, blockSize, blocks, i + 1);
    }
  }

  lemma AllFree(data: seq<Byte>, blockSize: nat, blocks: nat)
    requires blockSize > 0 && |data| == blockSize * blocks
    requires forall b: nat :: b < blocks && Start(b, blockSize) < |data| ==> data[Start(b, blockSize)] == b + 1
    ensures FreeList(data, blockSize, blocks, 0, blocks, {})
  {
    InitialList(data, blockSize, blocks, 0);
    var free := Follow(data, blockSize, blocks, 0, blocks);
    forall b: nat | b < blocks ensures b in free { assert free[b] == b; }
  }

  lemma Divides(b: nat, d: nat)
    requires d > 0
    ensures Start(b, d) / d == b
  {
    var q := b * d / d;
    assert q * d <= b * d < (q + 1) * d;
    assert q < b ==> (q + 1) * d <= b * d;
    assert b < q ==> (b + 1) * d <= q * d;
  }
}

module ChunkAllocator {
  import opened FreeLists
  import opened Options

  class Chunk {
    const blockSize: nat
    const blocks: Byte
    const data: array<Byte>           // pData_
    var firstAvailableBlock: Byte
    var blocksAvailable: Byte
    ghost var live: set<nat>          // the blocks handed out

    ghost predicate Valid()
      reads this, data
    {
      && blockSize > 0 && data.Length == blockSize * blocks
      && live <= Blocks(blocks)
      && FreeList(data[..], blockSize, blocks, firstAvailableBlock, blocksAvailable, live)
    }

    // What the holder of block b sees.
    ghost function BlockBytes(b: nat): (bytes: seq<Byte>)
      requires data.Length == blockSize * blocks && b < blocks
      reads data
      ensures |bytes| == blockSize
    {
      BytesOf(data[..], blockSize, blocks, b)
    }

    // Init
    constructor (blockSize: nat, blocks: Byte)
      requires blockSize > 0
      ensures Valid() && live == {} && blocksAvailable == blocks && fresh(data)
      ensures this.blockSize == blockSize && this.blocks == blocks
    {
      this.blockSize, this.blocks := blockSize, blocks;
      data := new Byte[blockSize * blocks];
      firstAvailableBlock, blocksAvailable, live := 0, blocks, {};
      new;
      Chain();
      AllFree(data[..], blockSize, blocks);
    }

    // The loop of Init: the first byte of every block names the next one.
    method Chain()
      requires blockSize > 0 && data.Length == blockSize * blocks
      modifies data
      ensures forall b: nat :: b < blocks && Start(b, blockSize) < data.Length ==> data[Start(b, blockSize)] == b + 1
    {
      var i := 0;
      var p := 0;
      while i < blocks
        invariant 0 <= i <= blocks && p == Start(i, blockSize)
        invariant forall b: nat :: b < i && Start(b, blockSize) < data.Length ==> data[Start(b, blockSize)] == b + 1
      {
        BlockInRange(i, blockSize, blocks);
        forall b: nat | b < i ensures Start(b, blockSize) != p { BlocksApart(b, i, blockSize, 0); }
        i := i + 1;
        data[p] := i;
        NextStart(i - 1, blockSize);
        p := p + blockSize;
      }
    }

    // The offset of a block b that was free, or nothing when all are taken.
    method Allocate() returns (p: Option<nat>, ghost b: nat)
      requires Valid()
      modifies this
      ensures Valid()
      ensures p == None <==> old(live) == Blocks(blocks)
      ensures p == None ==> live == old(live)
      ensures p.Some? ==> b < blocks && b !in old(live) && live == old(live) + {b} && p.value == b * blockSize
      ensures p.Some? ==> b == old(firstAvailableBlock) && blocksAvailable == old(blocksAvailable) - 1
    {
      b := firstAvailableBlock;
      if blocksAvailable == 0 {
        NoneFree(data[..], blockSize, blocks, firstAvailableBlock, live);
        return None, b;
      }
      ghost var (n, before) := (blocksAvailable, live);
      FirstIsFree(data[..], blockSize, blocks, b, n, before);
      var res := Start(firstAvailableBlock, blockSize);
      firstAvailableBlock := data[res];
      blocksAvailable := blocksAvailable - 1;
      live := live + {b};
      AllocateKeeps(data[..], blockSize, blocks, b, n, before, firstAvailableBlock, live);
      return Some(res), b;
    }

    // Takes back the block at offset p, which must be one handed out.  It is the
    // next to be handed out again, and no byte but its first changes.
    method Deallocate(p: nat, ghost b: nat)
      requires Valid() && b in live && p == Start(b, blockSize)
      modifies this, data
      ensures Valid() && live == old(live) - {b}
      ensures firstAvailableBlock == b && blocksAvailable == old(blocksAvailable) + 1
      ensures p < data.Length && data[..] == old(data[..])[p := old(firstAvailableBlock)]
      ensures forall c: nat :: c < blocks && c != b ==> BlockBytes(c) == old(BlockBytes(c))
    {
      ghost var (data0, live0, first0, n0) := (data[..], live, firstAvailableBlock, blocksAvailable);
      FreeCount(data0, blockSize, blocks, first0, n0, live0);
      BlockInRange(b, blockSize, blocks);
      Divides(b, blockSize);
      forall c: nat | c < blocks && c != b
        ensures BytesOf(data0[p := first0], blockSize, blocks, c) == BytesOf(data0, blockSize, blocks, c)
      {
        OneByteWritten(data0, blockSize, blocks, b, 0, p, first0, c);
      }
      data[p] := firstAvailableBlock;
      assert data[..] == data0[p := first0];
      firstAvailableBlock := p / blockSize;
      blocksAvailable := blocksAvailable + 1;
      live := live - {b};
      DeallocateKeeps(data0, blockSize, blocks, first0, n0, live0, b, p, data[..]);
    }

    // A client writes into a block it holds.
    method ClientWrite(b: nat, offset: nat, v: Byte)
      requires Valid() && b in live && offset < blockSize
      modifies data
      ensures Valid() && live == old(live)
      ensures BlockBytes(b) == old(BlockBytes(b))[offset := v]
      ensures forall c: nat :: c < blocks && c != b ==> BlockBytes(c) == old(BlockBytes(c))
    {
      BlockInRange(b, blockSize, blocks);
      ghost var data0 := data[..];
      var at := Start(b, blockSize) + offset;
      forall c: nat | c < blocks
        ensures BytesOf(data0[at := v], blockSize, blocks, c) ==
          if c == b then BytesOf(data0, blockSize, blocks, c)[offset := v] else BytesOf(data0, blockSize, blocks, c)
      {
        OneByteWritten(data0, blockSize, blocks, b, offset, at, v, c);
      }
      data[at] := v;
      assert data[..] == data0[at := v];
      WriteKeeps(data0, blockSize, blocks, firstAvailableBlock, blocksAvailable, live, b, offset, at, data[..]);
    }
  }
}
