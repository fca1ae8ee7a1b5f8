/** Allocation from pools, and the memory manager that gives back what is withdrawn in stack order. */
module Pools {
  import opened Values

  const MAX_INT := 0x7FFF_FFFF
  const NEW_POOL_SIZE := 262144
  const SEPARATE_ALLOCATION_THRESHOLD := 16384

  /** Round up to a multiple of eight, at least eight, unless that would overflow. */
  function Align(size: int): (aligned: int)
    requires size <= MAX_INT
    ensures size <= aligned <= MAX_INT && aligned >= 8
    ensures aligned % 8 == 0 <==> size <= 0x7FFF_FFF8
    ensures size <= 0x7FFF_FFF8 ==> aligned < size + 8 || aligned == 8
  {
    if size <= 0 then 8
    else
      var rounded := (size - 1) / 8 * 8;
      if rounded != MAX_INT / 8 * 8 then rounded + 8 else size
  }

  datatype Region = Region(base: int, size: nat)

  predicate Apart(a: Region, b: Region) { a.base + a.size <= b.base || b.base + b.size <= a.base }

  predicate Within(a: Region, b: Region) { b.base <= a.base && a.base + a.size <= b.base + b.size }

  ghost predicate AllApart(regions: seq<Region>) { forall i, j | 0 <= i < j < |regions| :: Apart(regions[i], regions[j]) }

  ghost predicate ApartFrom(regions: seq<Region>, r: Region) { forall i | 0 <= i < |regions| :: Apart(regions[i], r) }

  /** The block allocated at `bytes`. */
  function BlockAt(live: map<int, nat>, bytes: int): Region
    requires bytes in live
  {
    Region(bytes, live[bytes])
  }

  ghost predicate AllApartFrom(live: map<int, nat>, r: Region) { forall a | a in live :: Apart(BlockAt(live, a), r) }

  lemma MultipleLess(a: int, b: int)
    requires a % 8 == 0 && b % 8 == 0
    ensures (a - b) % 8 == 0
  {}

  class PoolAllocator {
    var pools: seq<Region>
    var current: bool            // whether there is a current pool
    var start: int
    var position: int
    var remaining: int
    ghost var live: map<int, nat>   // blocks handed out and not freed

    function CurrentPool(): Region
      reads this`start
    {
      Region(start, NEW_POOL_SIZE)
    }

    /** Blocks handed out do not overlap, lie inside pools, and in the current pool lie below the
        position from which the next one is taken. */
    ghost predicate LiveOk(live: map<int, nat>)
      reads this`pools, this`current, this`start, this`position
    {
      && (forall a, b | a in live && b in live && a != b :: Apart(BlockAt(live, a), BlockAt(live, b)))
      && (forall a | a in live :: live[a] >= 8 && InSomePool(BlockAt(live, a)))
      && (forall a | a in live && current :: a + live[a] <= position || Apart(BlockAt(live, a), CurrentPool()))
    }

    ghost predicate InSomePool(r: Region)
      reads this`pools
    {
      exists i :: 0 <= i < |pools| && Within(r, pools[i])
    }

    ghost predicate PoolsOk()
      reads this`pools, this`current, this`start, this`position, this`remaining
    {
      && AllApart(pools) && remaining >= 0 && (!current ==> remaining == 0)
      && (current ==> CurrentPool() in pools && start <= position && position - start + remaining == NEW_POOL_SIZE)
      && (current ==> (position - start) % 8 == 0)
    }

    ghost predicate Valid()
      reads this
    {
      PoolsOk() && LiveOk(live)
    }

    constructor ()
      ensures Valid() && live == map[] && pools == [] && !current
    {
      pools, current, start, position, remaining, live := [], false, 0, 0, 0, map[];
    }

    /** What the inner allocator promises about `place`: room for `size` bytes that it has not
        given out before. */
    ghost predicate Fresh(place: int, size: nat)
      reads this`pools
    {
      ApartFrom(pools, Region(place, size))
    }

    /** Allocate a block.  `place` is where the inner allocator would find memory, if asked: it is
        asked exactly if the current pool has no room.  A pool is given up only when less is left of
        it than the threshold for separate allocation. */
    method Allocate(size: int, place: int) returns (result: int)
      requires Valid() && size <= MAX_INT
      requires Fresh(place, if Align(size) > SEPARATE_ALLOCATION_THRESHOLD then Align(size) else NEW_POOL_SIZE)
      modifies this
      ensures Valid() && result !in old(live) && live == old(live)[result := Align(size)]
      ensures forall a | a in old(live) :: Apart(BlockAt(old(live), a), Region(result, Align(size)))
      ensures Align(size) <= old(remaining) ==> pools == old(pools) && result == old(position) && Bumped(old(start), result, size)
      ensures old(remaining) < Align(size) <= SEPARATE_ALLOCATION_THRESHOLD ==>
        pools == old(pools) + [Region(place, NEW_POOL_SIZE)] && result == place && Bumped(place, result, size)
      ensures old(remaining) < Align(size) && SEPARATE_ALLOCATION_THRESHOLD < Align(size) ==>
        && pools == old(pools) + [Region(place, Align(size))] && result == place
        && current == old(current) && start == old(start) && position == old(position)
      ensures current && old(current) && start != old(start) ==> old(remaining) < SEPARATE_ALLOCATION_THRESHOLD
      ensures pools != old(pools) ==> AllApartFrom(old(live), pools[|pools| - 1])
    {
      var aligned := Align(size);
      if aligned > remaining {
        if aligned > SEPARATE_ALLOCATION_THRESHOLD {
          result := place;
          TakeSeparately(place, aligned);
          return;
        }
        NewPool(place);
      }
      result := position;
      Take(aligned);
    }

    /** The block at `result` is the last of the pool at `start`. */
    predicate Bumped(start: int, result: int, size: int)
      requires size <= MAX_INT
      reads this`current, this`start, this`position
    {
      current && this.start == start && position == result + Align(size)
    }

    method TakeSeparately(place: int, aligned: int)
      requires Valid() && aligned >= 8 && Fresh(place, aligned)
      modifies this`pools, this`live
      ensures Valid() && place !in old(live) && live == old(live)[place := aligned]
      ensures AllApartFrom(old(live), Region(place, aligned))
      ensures pools == old(pools) + [Region(place, aligned)]
    {
      FreshBlock(place, aligned);
      pools := pools + [Region(place, aligned)];
      PoolsStay(old(pools));
      live := live[place := aligned];
      assert Within(Region(place, aligned), pools[|pools| - 1]);
    }

    /** New memory overlaps no block. */
    lemma FreshBlock(place: int, size: nat)
      requires Valid() && Fresh(place, size) && size > 0
      ensures place !in live && AllApartFrom(live, Region(place, size))
      ensures current ==> Apart(Region(place, size), CurrentPool())
    {
      forall a | a in live ensures Apart(BlockAt(live, a), Region(place, size)) {
        var i :| 0 <= i < |pools| && Within(BlockAt(live, a), pools[i]);
        assert Apart(pools[i], Region(place, size));
      }
      if current {
        var i :| 0 <= i < |pools| && pools[i] == CurrentPool();
        assert Apart(pools[i], Region(place, size));
      }
    }

    /** Memory allocated separately is outside the current pool. */
    lemma SeparateOutside(before: seq<Region>, place: int, size: nat)
      requires PoolsOk() && current && pools == before + [Region(place, size)] && size > 0
      requires CurrentPool() in before
      ensures Apart(CurrentPool(), Region(place, size))
    {
      var i :| 0 <= i < |before| && before[i] == CurrentPool();
      assert pools[i] == CurrentPool() && pools[|before|] == Region(place, size);
    }

    lemma PoolsStay(before: seq<Region>)
      requires before <= pools
      ensures forall r | (exists i :: 0 <= i < |before| && Within(r, before[i])) :: InSomePool(r)
      ensures forall r | r in before :: r in pools
    {
      forall r | (exists i :: 0 <= i < |before| && Within(r, before[i])) ensures InSomePool(r) {
        var i :| 0 <= i < |before| && Within(r, before[i]);
        assert Within(r, pools[i]);
      }
    }

    method NewPool(place: int)
      requires Valid() && Fresh(place, NEW_POOL_SIZE)
      modifies this`pools, this`current, this`start, this`position, this`remaining
      ensures Valid() && current && start == position == place && remaining == NEW_POOL_SIZE
      ensures pools == old(pools) + [Region(place, NEW_POOL_SIZE)] && AllApartFrom(live, Region(place, NEW_POOL_SIZE))
    {
      FreshBlock(place, NEW_POOL_SIZE);
      pools := pools + [Region(place, NEW_POOL_SIZE)];
      PoolsStay(old(pools));
      current, start, position, remaining := true, place, place, NEW_POOL_SIZE;
      assert pools[|pools| - 1] == CurrentPool();
    }

    method Take(aligned: int)
      requires Valid() && current && 8 <= aligned <= remaining && aligned % 8 == 0
      modifies this`position, this`remaining, this`live
      ensures Valid() && old(position) !in old(live) && live == old(live)[old(position) := aligned]
      ensures forall a | a in old(live) :: Apart(BlockAt(old(live), a), Region(old(position), aligned))
      ensures position == old(position) + aligned
    {
      assert Within(Region(position, aligned), CurrentPool());
      forall a | a in live ensures Apart(BlockAt(live, a), Region(position, aligned)) {}
      live := live[position := aligned];
      position := position + aligned;
      remaining := remaining - aligned;
    }

    /** Free a block; its memory is used again if it was the last one taken from the current pool. */
    method Free(bytes: int, size: int)
      requires Valid() && size <= MAX_INT && bytes in live && live[bytes] == Align(size)
      modifies this
      ensures Valid() && live == old(live) - {bytes} && pools == old(pools)
      ensures current == old(current) && start == old(start)
      ensures old(current) && bytes >= start && bytes + Align(size) == old(position) ==> position == bytes
      ensures !(old(current) && bytes >= start && bytes + Align(size) == old(position)) ==> position == old(position)
    {
      var aligned := Align(size);
      if current && bytes + aligned == position && bytes >= start {
        GiveBack(bytes, aligned);
      } else {
        live := live - {bytes};
      }
    }

    method GiveBack(bytes: int, aligned: int)
      requires Valid() && bytes in live && live[bytes] == aligned && aligned % 8 == 0
      requires current && bytes + aligned == position && bytes >= start
      modifies this`live, this`position, this`remaining
      ensures Valid() && live == old(live) - {bytes} && position == bytes
    {
      OthersBelow(bytes);
      live := live - {bytes};
      MultipleLess(position - start, aligned);
      position := position - aligned;
      remaining := remaining + aligned;
    }

    /** The other blocks of the current pool lie below the block allocated last. */
    lemma OthersBelow(bytes: int)
      requires Valid() && current && bytes in live && bytes + live[bytes] == position
      ensures forall a | a in live && a != bytes :: a + live[a] <= bytes || Apart(BlockAt(live, a), CurrentPool())
    {
      forall a | a in live && a != bytes ensures a + live[a] <= bytes || Apart(BlockAt(live, a), CurrentPool()) {
        assert Apart(BlockAt(live, a), BlockAt(live, bytes));
        assert a + live[a] <= position || Apart(BlockAt(live, a), CurrentPool());
      }
    }
  }

  /** A block, with the size that was asked for. */
  datatype Block = Block(bytes: int, size: int)

  function Extent(b: Block): Region
    requires b.size <= MAX_INT
  {
    Region(b.bytes, Align(b.size))
  }

  /** The list has each of the allocator's blocks once. */
  ghost predicate Tracks(list: seq<Block>, live: map<int, nat>) {
    && (forall i | 0 <= i < |list| :: Holds(live, list[i]))
    && (forall i, j | 0 <= i < j < |list| :: list[i].bytes != list[j].bytes)
    && (forall a | a in live :: Listed(list, a))
  }

  predicate Holds(live: map<int, nat>, b: Block) {
    b.size <= MAX_INT && b.bytes in live && live[b.bytes] == Align(b.size)
  }

  // ---------------------------------------------------------------------------
  // The blocks of the current pool, as a stack.

  predicate InPool(b: Block, start: int) { start <= b.bytes < start + NEW_POOL_SIZE }

  /** Those of the blocks that lie in the pool at `start` fill it up to `position`, one after another
      in this order, without gaps. */
  ghost predicate Piled(list: seq<Block>, start: int, position: int)
    requires forall i | 0 <= i < |list| :: list[i].size <= MAX_INT
    decreases |list|
  {
    if list == [] then position == start
    else
      var last := |list| - 1;
      if InPool(list[last], start) then
        list[last].bytes + Align(list[last].size) == position && Piled(list[..last], start, list[last].bytes)
      else Piled(list[..last], start, position)
  }

  /** How much of the pool at `start` the blocks take. */
  function InUse(list: seq<Block>, start: int): int
    requires forall i | 0 <= i < |list| :: list[i].size <= MAX_INT
    decreases |list|
  {
    if list == [] then 0
    else
      var last := |list| - 1;
      InUse(list[..last], start) + if InPool(list[last], start) then Align(list[last].size) else 0
  }

  lemma {:induction false} PiledInUse(list: seq<Block>, start: int, position: int)
    requires (forall i | 0 <= i < |list| :: list[i].size <= MAX_INT) && Piled(list, start, position)
    ensures position - start == InUse(list, start)
    decreases |list|
  {
    if list != [] {
      var last := |list| - 1;
      PiledInUse(list[..last], start, if InPool(list[last], start) then list[last].bytes else position);
    }
  }

  lemma {:induction false} NonePiled(list: seq<Block>, start: int)
    requires (forall i | 0 <= i < |list| :: list[i].size <= MAX_INT && !InPool(list[i], start))
    ensures Piled(list, start, start)
    decreases |list|
  {
    if list != [] { NonePiled(list[..|list| - 1], start); }
  }

  lemma OneMorePiled(list: seq<Block>, b: Block, start: int, position: int)
    requires (forall i | 0 <= i < |list| :: list[i].size <= MAX_INT) && b.size <= MAX_INT && Piled(list, start, position)
    requires InPool(b, start) ==> b.bytes == position
    ensures Piled(list + [b], start, if InPool(b, start) then position + Align(b.size) else position)
  {
    assert (list + [b])[..|list|] == list;
  }

  lemma NoneInside(list: seq<Block>, live: map<int, nat>, place: int)
    requires Tracks(list, live) && AllApartFrom(live, Region(place, NEW_POOL_SIZE))
    ensures forall i | 0 <= i < |list| :: list[i].size <= MAX_INT && !InPool(list[i], place)
  {
    forall i | 0 <= i < |list| ensures list[i].size <= MAX_INT && !InPool(list[i], place) {
      assert Holds(live, list[i]) && Apart(BlockAt(live, list[i].bytes), Region(place, NEW_POOL_SIZE));
    }
  }

  function Reversed(list: seq<Block>): (r: seq<Block>)
    ensures |r| == |list| && forall i | 0 <= i < |list| :: r[i] == list[|list| - 1 - i]
  {
    if list == [] then [] else Reversed(list[1..]) + [list[0]]
  }

  ghost predicate Listed(list: seq<Block>, a: int) { exists i :: 0 <= i < |list| && list[i].bytes == a }

  lemma TracksMore(list: seq<Block>, live: map<int, nat>, b: Block)
    requires Tracks(list, live) && b.size <= MAX_INT && b.bytes !in live
    ensures Tracks(list + [b], live[b.bytes := Align(b.size)])
  {
    var after := list + [b];
    assert after[|list|] == b;
    forall a | a in live[b.bytes := Align(b.size)] ensures Listed(after, a) {
      if a in live {
        var i :| 0 <= i < |list| && list[i].bytes == a;
        assert after[i].bytes == a;
      }
    }
  }

  lemma TracksLess(list: seq<Block>, live: map<int, nat>, k: nat)
    requires Tracks(list, live) && k < |list|
    ensures Tracks(list[..k] + list[k + 1..], live - {list[k].bytes})
  {
    var after := list[..k] + list[k + 1..];
    forall i | 0 <= i < |after| ensures after[i] == list[if i < k then i else i + 1] {}
    forall i | 0 <= i < |after| ensures Holds(live - {list[k].bytes}, after[i]) {
      assert Holds(live, list[if i < k then i else i + 1]);
    }
    forall a | a in live - {list[k].bytes} ensures Listed(after, a) { StillListed(list, a, k); }
  }

  lemma StillListed(list: seq<Block>, a: int, k: nat)
    requires Listed(list, a) && k < |list| && list[k].bytes != a
    ensures Listed(list[..k] + list[k + 1..], a)
  {
    var i :| 0 <= i < |list| && list[i].bytes == a;
    assert (list[..k] + list[k + 1..])[if i < k then i else i - 1].bytes == a;
  }

  lemma LastMoved(blocks: seq<Block>, withdrawn: seq<Block>)
    requires blocks != []
    ensures var last, all := |blocks| - 1, blocks + withdrawn;
            blocks[..last] + (withdrawn + [blocks[last]]) == all[..last] + all[last + 1..] + [all[last]]
            && all[last] == blocks[last]
  {}

  lemma TracksMoved(list: seq<Block>, live: map<int, nat>, k: nat)
    requires Tracks(list, live) && k < |list|
    ensures Tracks(list[..k] + list[k + 1..] + [list[k]], live)
  {
    TracksLess(list, live, k);
    assert Holds(live, list[k]);
    TracksMore(list[..k] + list[k + 1..], live - {list[k].bytes}, list[k]);
    assert (live - {list[k].bytes})[list[k].bytes := Align(list[k].size)] == live;
  }

  /** A memory manager that never moves anything.  Blocks are withdrawn in the reverse order of
      their allocation; their memory is given back at the next allocation, not before. */
  class BraindeadMemoryManager {
    const allocator: PoolAllocator
    var blocks: seq<Block>
    var withdrawn: seq<Block>

    /** The allocator's blocks are those in use and those withdrawn, each once. */
    ghost predicate Valid()
      reads this, allocator
    {
      allocator.Valid() && Tracks(blocks + withdrawn, allocator.live) && Stacked()
    }

    /** The blocks the allocator still has to keep, in the order of their allocation. */
    ghost function Stack(): (stack: seq<Block>)
      reads this
    {
      blocks + Reversed(withdrawn)
    }

    /** They fill the current pool without gaps. */
    ghost predicate Stacked()
      reads this, allocator
    {
      && (forall i | 0 <= i < |Stack()| :: Stack()[i].size <= MAX_INT)
      && (allocator.current ==> Piled(Stack(), allocator.start, allocator.position))
    }

    /** Nothing of the current pool is lost: what is taken of it belongs to blocks in use, and to those
        withdrawn since the last allocation. */
    lemma NothingLost()
      requires Valid() && allocator.current
      ensures forall i | 0 <= i < |Stack()| :: Stack()[i].size <= MAX_INT
      ensures allocator.position - allocator.start == InUse(Stack(), allocator.start)
      ensures withdrawn == [] ==> Stack() == blocks
    {
      PiledInUse(Stack(), allocator.start, allocator.position);
    }

    constructor ()
      ensures Valid() && fresh(allocator) && blocks == [] && withdrawn == []
    {
      allocator := new PoolAllocator();
      blocks, withdrawn := [], [];
    }

    /** Blocks in use overlap neither each other nor what has been withdrawn, and all of them are
        inside the allocator's pools. */
    lemma NothingOverlaps(i: nat, j: nat)
      requires Valid() && i < j < |blocks + withdrawn|
      ensures (blocks + withdrawn)[i].size <= MAX_INT && (blocks + withdrawn)[j].size <= MAX_INT
      ensures Apart(Extent((blocks + withdrawn)[i]), Extent((blocks + withdrawn)[j]))
      ensures allocator.InSomePool(Extent((blocks + withdrawn)[i])) && allocator.InSomePool(Extent((blocks + withdrawn)[j]))
    {
      var all := blocks + withdrawn;
      assert Holds(allocator.live, all[i]) && Holds(allocator.live, all[j]) && all[i].bytes != all[j].bytes;
      assert Extent(all[i]) == BlockAt(allocator.live, all[i].bytes) && Extent(all[j]) == BlockAt(allocator.live, all[j].bytes);
    }

    method DoPendingWithdraw()
      requires Valid()
      modifies this`withdrawn, allocator
      ensures Valid() && withdrawn == [] && allocator.pools == old(allocator.pools)
    {
      while withdrawn != []
        invariant Valid() && allocator.pools == old(allocator.pools)
        decreases |withdrawn|
      {
        ReleaseFirst();
      }
    }

    method ReleaseFirst()
      requires Valid() && withdrawn != []
      modifies this`withdrawn, allocator
      ensures Valid() && withdrawn == old(withdrawn)[1..] && allocator.pools == old(allocator.pools)
    {
      ghost var all, live, stack := blocks + withdrawn, allocator.live, Stack();
      var b := withdrawn[0];
      assert all[|blocks|] == b && Holds(live, all[|blocks|]);
      assert stack[|stack| - 1] == b;
      allocator.Free(b.bytes, b.size);
      withdrawn := withdrawn[1..];
      assert Stack() == stack[..|stack| - 1];
      TracksLess(all, live, |blocks|);
      assert blocks + withdrawn == all[..|blocks|] + all[|blocks| + 1..];
    }

    /** Allocate a block, after giving back what has been withdrawn. */
    method AllocateBytes(size: int, place: int) returns (result: int)
      requires Valid() && size <= MAX_INT
      requires allocator.Fresh(place, if Align(size) > SEPARATE_ALLOCATION_THRESHOLD then Align(size) else NEW_POOL_SIZE)
      modifies this, allocator
      ensures Valid() && withdrawn == [] && blocks == old(blocks) + [Block(result, size)]
    {
      DoPendingWithdraw();
      assert blocks + withdrawn == blocks == Stack();
      result := TakeNext(size, place);
      blocks := blocks + [Block(result, size)];
      assert blocks + withdrawn == blocks == Stack();
    }

    /** Take the next block from the allocator. */
    method TakeNext(size: int, place: int) returns (result: int)
      requires allocator.Valid() && Tracks(blocks, allocator.live) && size <= MAX_INT
      requires allocator.Fresh(place, if Align(size) > SEPARATE_ALLOCATION_THRESHOLD then Align(size) else NEW_POOL_SIZE)
      requires forall i | 0 <= i < |blocks| :: blocks[i].size <= MAX_INT
      requires allocator.current ==> Piled(blocks, allocator.start, allocator.position)
      modifies allocator
      ensures allocator.Valid() && Tracks(blocks + [Block(result, size)], allocator.live)
      ensures forall i | 0 <= i < |blocks + [Block(result, size)]| :: (blocks + [Block(result, size)])[i].size <= MAX_INT
      ensures allocator.current ==> Piled(blocks + [Block(result, size)], allocator.start, allocator.position)
    {
      ghost var live, start, position, current := allocator.live, allocator.start, allocator.position, allocator.current;
      ghost var before, room := allocator.pools, allocator.remaining;
      result := allocator.Allocate(size, place);
      TracksMore(blocks, live, Block(result, size));
      if room < Align(size) <= SEPARATE_ALLOCATION_THRESHOLD {
        NoneInside(blocks, live, place);
        NonePiled(blocks, place);
        OneMorePiled(blocks, Block(result, size), place, place);
      } else if current {
        if room < Align(size) { allocator.SeparateOutside(before, place, Align(size)); }
        OneMorePiled(blocks, Block(result, size), start, position);
      }
    }

    /** Extending is not supported; it still gives back what has been withdrawn. */
    method TryExtendBytes(size: int) returns (result: Option<int>)
      requires Valid()
      modifies this`withdrawn, allocator
      ensures Valid() && withdrawn == [] && result == None
    {
      DoPendingWithdraw();
      return None;
    }

    /** Withdraw the block allocated last, if it is this one.  Its memory stays as it is. */
    method TryWithdrawBytes(bytes: int, size: int) returns (ok: bool)
      requires Valid()
      modifies this`blocks, this`withdrawn
      ensures Valid() && ok == (old(blocks) != [] && old(blocks)[|old(blocks)| - 1] == Block(bytes, size))
      ensures blocks == if ok then old(blocks)[..|old(blocks)| - 1] else old(blocks)
      ensures withdrawn == if ok then old(withdrawn) + [Block(bytes, size)] else old(withdrawn)
    {
      if blocks == [] || blocks[|blocks| - 1] != Block(bytes, size) { return false; }
      var last := |blocks| - 1;
      TracksMoved(blocks + withdrawn, allocator.live, last);
      LastMoved(blocks, withdrawn);
      ghost var stack := Stack();
      withdrawn := withdrawn + [blocks[last]];
      blocks := blocks[..last];
      assert Stack() == stack;
      return true;
    }
  }
}
