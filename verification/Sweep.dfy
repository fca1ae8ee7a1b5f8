/** The second half of a collection: merging marks into segments, redirecting pointers and copying. */
module Sweep {
  import opened Collector

  /** A piece of memory that is moved as a whole. */
  datatype Segment = Segment(block: nat, from0: int, to0: int, size: nat)

  // ---------------------------------------------------------------------------
  // The order in which marks are kept.

  predicate Before(a: Key, b: Key) { a.block < b.block || (a.block == b.block && a.target <= b.target) }

  ghost predicate Sorted(keys: seq<Key>) { forall i, j | 0 <= i < j < |keys| :: Before(keys[i], keys[j]) }

  ghost predicate Lists(keys: seq<Key>, all: set<Key>) {
    && (forall key :: key in all <==> key in keys)
    && (forall i, j | 0 <= i < j < |keys| :: keys[i] != keys[j])
  }

  method InOrder(all: set<Key>) returns (keys: seq<Key>)
    ensures Sorted(keys) && Lists(keys, all)
  {
    keys := [];
    var remaining := all;
    while remaining != {}
      invariant remaining <= all && Sorted(keys) && Lists(keys, all - remaining)
      decreases remaining
    {
      var key :| key in remaining;
      remaining := remaining - {key};
      var i := |keys|;
      while i > 0 && !Before(keys[i - 1], key)
        invariant 0 <= i <= |keys| && forall j | i <= j < |keys| :: Before(key, keys[j])
      {
        i := i - 1;
      }
      InsertSorted(keys, i, key, all - remaining - {key});
      keys := keys[..i] + [key] + keys[i..];
      assert all - remaining == (all - remaining - {key}) + {key};
    }
    assert all - remaining == all;
  }

  lemma InsertSorted(keys: seq<Key>, i: nat, key: Key, all: set<Key>)
    requires i <= |keys| && Sorted(keys) && Lists(keys, all) && key !in all
    requires i > 0 ==> Before(keys[i - 1], key)
    requires forall j | i <= j < |keys| :: Before(key, keys[j])
    ensures Sorted(keys[..i] + [key] + keys[i..]) && Lists(keys[..i] + [key] + keys[i..], all + {key})
  {
    var after := keys[..i] + [key] + keys[i..];
    assert forall j | 0 <= j < i :: after[j] == keys[j];
    assert forall j | i < j < |after| :: after[j] == keys[j - 1];
    forall k ensures k in all + {key} <==> k in after {
      if k in keys {
        var j :| 0 <= j < |keys| && keys[j] == k;
        assert after[if j < i then j else j + 1] == k;
      }
      if k == key { assert after[i] == k; }
    }
  }

  // ---------------------------------------------------------------------------
  // Segments.

  /** Marks start in their blocks and stay inside them, and their slots point to them. */
  ghost predicate Fitting(h: Heap, marks: Marks, keys: seq<Key>) {
    && Disjoint(h.blocks) && Lists(keys, marks.Keys) && Sorted(keys)
    && forall i | 0 <= i < |keys| ::
         && keys[i].block < |h.blocks| && h.blocks[keys[i].block].base <= keys[i].target
         && keys[i].target + marks[keys[i]].size <= h.blocks[keys[i].block].base + h.blocks[keys[i].block].size
         && forall s | s in marks[keys[i]].slots :: s in h.memory && h.memory[s] == Pointer(keys[i].target)
  }

  /** The mark is covered by the segment. */
  predicate Covers(g: Segment, key: Key, size: nat) {
    g.block == key.block && g.from0 <= key.target && key.target + size <= g.from0 + g.size
  }

  /** `owner` tells which segment covers each of the first marks; segments do not overlap and do
      not reach the marks still to come; new places do not overlap either. */
  ghost predicate Partitioned(h: Heap, marks: Marks, keys: seq<Key>, segments: seq<Segment>, owner: seq<nat>, bottom: int, top: int)
    requires Fitting(h, marks, keys) && |owner| <= |keys|
  {
    && (forall j | 0 <= j < |owner| :: owner[j] < |segments| && Covers(segments[owner[j]], keys[j], marks[keys[j]].size))
    && (forall g | 0 <= g < |segments| :: SegmentOk(h, segments[g], bottom, top))
    && (forall g, i | 0 <= g < i < |segments| :: Apart(segments[g], segments[i]))
    && (forall g, j | 0 <= g < |segments| && |owner| <= j < |keys| :: Ahead(segments[g], keys[j]))
  }

  ghost predicate SegmentOk(h: Heap, g: Segment, bottom: int, top: int) {
    && g.block < |h.blocks| && h.blocks[g.block].base <= g.from0
    && g.from0 + g.size <= h.blocks[g.block].base + h.blocks[g.block].size
    && bottom <= g.to0 && g.to0 + g.size <= top
  }

  predicate Apart(a: Segment, b: Segment) {
    && (a.block == b.block ==> a.from0 + a.size < b.from0)
    && a.to0 + a.size <= b.to0
  }

  /** The cell `a` is in what the `j`-th mark covers. */
  predicate InMark(marks: Marks, keys: seq<Key>, j: nat, a: int) {
    j < |keys| && keys[j] in marks && keys[j].target <= a < keys[j].target + marks[keys[j]].size
  }

  ghost predicate InOneOf(marks: Marks, keys: seq<Key>, first: nat, after: nat, a: int) {
    exists j :: first <= j < after && InMark(marks, keys, j, a)
  }

  /** Segments hold nothing but what marks cover: each of their cells is in a mark of theirs. */
  ghost predicate Filled(marks: Marks, keys: seq<Key>, segments: seq<Segment>, owner: seq<nat>) {
    forall g, a | 0 <= g < |segments| && segments[g].from0 <= a < segments[g].from0 + segments[g].size ::
      CellMarked(marks, keys, owner, g, a)
  }

  ghost predicate CellMarked(marks: Marks, keys: seq<Key>, owner: seq<nat>, g: nat, a: int) {
    exists j :: 0 <= j < |owner| && owner[j] == g && InMark(marks, keys, j, a)
  }

  predicate Ahead(g: Segment, key: Key) { g.block == key.block ==> g.from0 + g.size < key.target }

  /** By how much the pointer in cell `a` has been moved after the first `n` marks. */
  function Shift(marks: Marks, keys: seq<Key>, segments: seq<Segment>, owner: seq<nat>, a: int, n: nat): int
    requires n <= |owner| <= |keys| && (forall j | 0 <= j < |owner| :: owner[j] < |segments|)
    requires forall key | key in keys :: key in marks
  {
    if n == 0 then 0
    else
      Shift(marks, keys, segments, owner, a, n - 1)
        + if a in marks[keys[n - 1]].slots then segments[owner[n - 1]].to0 - segments[owner[n - 1]].from0 else 0
  }

  function Moved(c: Cell, delta: int): Cell {
    match c
    case Raw(_) => c
    case Pointer(target) => Pointer(target + delta)
  }

  /** Collect the marks, from position `first` on, that overlap or touch one another. */
  method FindRun(h: Heap, marks: Marks, keys: seq<Key>, first: nat) returns (after: nat, from0: int, end: int)
    requires Fitting(h, marks, keys) && first < |keys|
    ensures first < after <= |keys| && from0 == keys[first].target && from0 <= end
    ensures end <= h.blocks[keys[first].block].base + h.blocks[keys[first].block].size
    ensures forall j | first <= j < after ::
      keys[j].block == keys[first].block && from0 <= keys[j].target && keys[j].target + marks[keys[j]].size <= end
    ensures forall j | after <= j < |keys| && keys[j].block == keys[first].block :: end < keys[j].target
    ensures forall a | from0 <= a < end :: InOneOf(marks, keys, first, after, a)
  {
    from0 := keys[first].target;
    end := from0;
    after := first;
    while after < |keys| && keys[after].block == keys[first].block && keys[after].target <= end
      invariant first <= after <= |keys| && from0 <= end && (after == first ==> end == from0)
      invariant end <= h.blocks[keys[first].block].base + h.blocks[keys[first].block].size
      invariant forall j | first <= j < after ::
        keys[j].block == keys[first].block && from0 <= keys[j].target && keys[j].target + marks[keys[j]].size <= end
      invariant forall a | from0 <= a < end :: InOneOf(marks, keys, first, after, a)
    {
      var newEnd := keys[after].target + marks[keys[after]].size;
      OneMoreMark(marks, keys, first, after, from0, end, after + 1);
      if newEnd > end { end := newEnd; }
      after := after + 1;
    }
    forall j | after <= j < |keys| && keys[j].block == keys[first].block ensures end < keys[j].target {
      assert Before(keys[first], keys[after]) && (after < j ==> Before(keys[after], keys[j]));
    }
  }

  /** A mark that starts before the end of a run, or where the run ends, leaves no gap. */
  lemma OneMoreMark(marks: Marks, keys: seq<Key>, first: nat, after: nat, from0: int, end: int, next: nat)
    requires next == after + 1 && first <= after < |keys| && keys[after] in marks && keys[after].target <= end
    requires forall a | from0 <= a < end :: InOneOf(marks, keys, first, after, a)
    ensures forall a | from0 <= a < end || end <= a < keys[after].target + marks[keys[after]].size ::
      InOneOf(marks, keys, first, next, a)
  {
    forall a | from0 <= a < end || end <= a < keys[after].target + marks[keys[after]].size
      ensures InOneOf(marks, keys, first, next, a)
    {
      if from0 <= a < end {
        assert InOneOf(marks, keys, first, after, a);
        var j :| first <= j < after && InMark(marks, keys, j, a);
      } else {
        assert InMark(marks, keys, after, a);
      }
    }
  }

  /** Extending the partition with the segment of a run of marks. */
  lemma RunPartitioned(h: Heap, marks: Marks, keys: seq<Key>, segments: seq<Segment>, owner: seq<nat>, bottom: int, top: int,
                       after: nat, g: Segment, owner': seq<nat>)
    requires Fitting(h, marks, keys) && |owner| < after <= |keys|
    requires Partitioned(h, marks, keys, segments, owner, bottom, top) && bottom <= top
    requires g == Segment(keys[|owner|].block, keys[|owner|].target, top, g.size)
    requires g.from0 + g.size <= h.blocks[g.block].base + h.blocks[g.block].size
    requires forall j | |owner| <= j < after :: Covers(g, keys[j], marks[keys[j]].size)
    requires forall j | after <= j < |keys| :: Ahead(g, keys[j])
    requires |owner'| == after && (forall j | 0 <= j < |owner| :: owner'[j] == owner[j])
    requires forall j | |owner| <= j < after :: owner'[j] == |segments|
    ensures Partitioned(h, marks, keys, segments + [g], owner', bottom, top + g.size)
  {
    var segments' := segments + [g];
    forall j | 0 <= j < |owner'| ensures owner'[j] < |segments'| && Covers(segments'[owner'[j]], keys[j], marks[keys[j]].size) {}
    forall i | 0 <= i < |segments'| ensures SegmentOk(h, segments'[i], bottom, top + g.size) {
      if i < |segments| { assert SegmentOk(h, segments[i], bottom, top); }
    }
    forall a, b | 0 <= a < b < |segments'| ensures Apart(segments'[a], segments'[b]) {
      if b < |segments| {
        assert Apart(segments[a], segments[b]);
      } else {
        assert SegmentOk(h, segments[a], bottom, top) && Ahead(segments[a], keys[|owner|]);
      }
    }
    forall a, j | 0 <= a < |segments'| && |owner'| <= j < |keys| ensures Ahead(segments'[a], keys[j]) {
      if a < |segments| { assert Ahead(segments[a], keys[j]); }
    }
  }

  /** The new segment is filled by its marks, and the others still are by theirs. */
  lemma RunFilled(marks: Marks, keys: seq<Key>, segments: seq<Segment>, owner: seq<nat>, after: nat, g: Segment, owner': seq<nat>)
    requires Filled(marks, keys, segments, owner) && |owner| < after <= |keys|
    requires forall a | g.from0 <= a < g.from0 + g.size :: InOneOf(marks, keys, |owner|, after, a)
    requires |owner'| == after && (forall j | 0 <= j < |owner| :: owner'[j] == owner[j])
    requires forall j | |owner| <= j < after :: owner'[j] == |segments|
    ensures Filled(marks, keys, segments + [g], owner')
  {
    var segments' := segments + [g];
    forall i, a | 0 <= i < |segments'| && segments'[i].from0 <= a < segments'[i].from0 + segments'[i].size
      ensures CellMarked(marks, keys, owner', i, a)
    {
      if i < |segments| {
        assert CellMarked(marks, keys, owner, i, a);
        var j :| 0 <= j < |owner| && owner[j] == i && InMark(marks, keys, j, a);
        assert owner'[j] == i;
      } else {
        assert InOneOf(marks, keys, |owner|, after, a);
        var j :| |owner| <= j < after && InMark(marks, keys, j, a);
        assert owner'[j] == i;
      }
    }
  }

  method Pick<T(==)>(s: set<T>) returns (x: T)
    requires s != {}
    ensures x in s
  {
    x :| x in s;
  }

  /** Add `delta` to the pointers in the cells `slots`. */
  method Redirect(memory: Memory, slots: set<int>, delta: int) returns (after: Memory)
    requires forall s | s in slots :: s in memory
    ensures after.Keys == memory.Keys
    ensures forall a | a in memory :: after[a] == if a in slots then Moved(memory[a], delta) else memory[a]
  {
    after := memory;
    var remaining := slots;
    while remaining != {}
      invariant remaining <= slots && after.Keys == memory.Keys
      invariant forall a | a in memory ::
        after[a] == if a in slots && a !in remaining then Moved(memory[a], delta) else memory[a]
      decreases remaining
    {
      var s := Pick(remaining);
      remaining := remaining - {s};
      after := after[s := Moved(after[s], delta)];
    }
  }

  /** The cell at offset `k` has been copied. */
  predicate CopiedAt(before: Memory, after: Memory, from0: int, to0: int, k: int) {
    from0 + k in before && to0 + k in after && after[to0 + k] == before[from0 + k]
  }

  /** Copy `size` cells; the two places do not overlap. */
  method Copy(memory: Memory, from0: int, to0: int, size: nat) returns (after: Memory)
    requires forall a | from0 <= a < from0 + size :: a in memory
    requires size > 0 ==> from0 + size <= to0
    ensures forall a :: a in after <==> a in memory || to0 <= a < to0 + size
    ensures forall a | a in memory && !(to0 <= a < to0 + size) :: after[a] == memory[a]
    ensures forall k | 0 <= k < size :: CopiedAt(memory, after, from0, to0, k)
  {
    after := memory;
    for k := 0 to size
      invariant forall a :: a in after <==> a in memory || to0 <= a < to0 + k
      invariant forall a | a in memory && !(to0 <= a < to0 + k) :: after[a] == memory[a]
      invariant forall j | 0 <= j < k :: CopiedAt(memory, after, from0, to0, j)
    {
      ghost var was := after;
      after := after[to0 + k := after[from0 + k]];
      forall j | 0 <= j < k + 1 ensures CopiedAt(memory, after, from0, to0, j) {
        if j < k { assert CopiedAt(memory, was, from0, to0, j); }
      }
    }
  }

  lemma {:induction false} ShiftStable(marks: Marks, keys: seq<Key>, segments: seq<Segment>, owner: seq<nat>,
                                       segments': seq<Segment>, owner': seq<nat>, a: int, n: nat)
    requires n <= |owner| <= |owner'| <= |keys| && (forall j | 0 <= j < |owner| :: owner[j] < |segments|)
    requires forall j | 0 <= j < |owner'| :: owner'[j] < |segments'|
    requires forall key | key in keys :: key in marks
    requires segments <= segments' && owner <= owner'
    ensures Shift(marks, keys, segments', owner', a, n) == Shift(marks, keys, segments, owner, a, n)
  {
    if n > 0 { ShiftStable(marks, keys, segments, owner, segments', owner', a, n - 1); }
  }

  /** Every pointer has been moved as the first `n` marks demand. */
  ghost predicate MovedSoFar(h: Heap, marks: Marks, keys: seq<Key>, segments: seq<Segment>, owner: seq<nat>, n: nat, memory: Memory)
    requires n <= |owner| <= |keys| && (forall j | 0 <= j < |owner| :: owner[j] < |segments|)
    requires forall key | key in keys :: key in marks
  {
    && memory.Keys == h.memory.Keys
    && forall a | a in memory :: memory[a] == Moved(h.memory[a], Shift(marks, keys, segments, owner, a, n))
  }

  lemma OneMarkMoved(h: Heap, marks: Marks, keys: seq<Key>, segments: seq<Segment>, owner: seq<nat>, j: nat, was: Memory, memory: Memory)
    requires j < |owner| <= |keys| && (forall j | 0 <= j < |owner| :: owner[j] < |segments|)
    requires forall key | key in keys :: key in marks
    requires MovedSoFar(h, marks, keys, segments, owner, j, was) && memory.Keys == was.Keys
    requires var g := segments[owner[j]]; forall a | a in was ::
      memory[a] == if a in marks[keys[j]].slots then Moved(was[a], g.to0 - g.from0) else was[a]
    ensures MovedSoFar(h, marks, keys, segments, owner, j + 1, memory)
  {
  }

  /** Redirect the slots of the marks of one segment. */
  method RedirectRun(h: Heap, marks: Marks, keys: seq<Key>, g: Segment, first: nat, after: nat, before: Memory,
                     ghost segments: seq<Segment>, ghost owner: seq<nat>) returns (memory: Memory)
    requires Fitting(h, marks, keys) && first <= after == |owner| <= |keys|
    requires segments != [] && g == segments[|segments| - 1]
    requires (forall j | 0 <= j < |owner| :: owner[j] < |segments|) && forall j | first <= j < after :: owner[j] == |segments| - 1
    requires MovedSoFar(h, marks, keys, segments, owner, first, before)
    ensures MovedSoFar(h, marks, keys, segments, owner, after, memory)
  {
    memory := before;
    for j := first to after
      invariant MovedSoFar(h, marks, keys, segments, owner, j, memory)
    {
      ghost var was := memory;
      assert keys[j] in keys;
      memory := Redirect(memory, marks[keys[j]].slots, g.to0 - g.from0);
      OneMarkMoved(h, marks, keys, segments, owner, j, was, memory);
    }
  }

  /** Cut the marks into segments, find new places for them from `bottom` on, and redirect all
      pointers to them. */
  method MergeAndRedirect(h: Heap, marks: Marks, keys: seq<Key>, bottom: int)
    returns (memory: Memory, segments: seq<Segment>, ghost owner: seq<nat>, top: int)
    requires Fitting(h, marks, keys)
    ensures |owner| == |keys| && Partitioned(h, marks, keys, segments, owner, bottom, top)
    ensures Filled(marks, keys, segments, owner)
    ensures MovedSoFar(h, marks, keys, segments, owner, |keys|, memory)
  {
    memory, segments, owner, top := h.memory, [], [], bottom;
    var first := 0;
    while first < |keys|
      invariant first == |owner| <= |keys| && bottom <= top
      invariant Partitioned(h, marks, keys, segments, owner, bottom, top)
      invariant Filled(marks, keys, segments, owner)
      invariant MovedSoFar(h, marks, keys, segments, owner, first, memory)
    {
      var after, from0, end := FindRun(h, marks, keys, first);
      var g := Segment(keys[first].block, from0, top, end - from0);
      ghost var owner' := owner + seq(after - first, _ => |segments|);
      RunPartitioned(h, marks, keys, segments, owner, bottom, top, after, g, owner');
      RunFilled(marks, keys, segments, owner, after, g, owner');
      forall a | a in memory ensures memory[a] == Moved(h.memory[a], Shift(marks, keys, segments + [g], owner', a, first)) {
        ShiftStable(marks, keys, segments, owner, segments + [g], owner', a, first);
      }
      memory := RedirectRun(h, marks, keys, g, first, after, memory, segments + [g], owner');
      segments, owner, top, first := segments + [g], owner', top + g.size, after;
    }
  }

  /** All cells of the heap's blocks are in memory, below the places that will be given out. */
  ghost predicate Present(h: Heap, memory: Memory, bottom: int) {
    forall b | 0 <= b < |h.blocks| :: BlockPresent(h.blocks[b], memory, bottom)
  }

  ghost predicate BlockPresent(b: Block, memory: Memory, bottom: int) {
    && b.base + b.size <= bottom
    && forall a | b.base <= a < b.base + b.size :: a in memory
  }

  /** Copy all segments to their new places. */
  method CopyAll(h: Heap, marks: Marks, keys: seq<Key>, memory: Memory, segments: seq<Segment>, ghost owner: seq<nat>,
                 bottom: int, ghost top: int) returns (after: Memory)
    requires Fitting(h, marks, keys) && |owner| == |keys| && Partitioned(h, marks, keys, segments, owner, bottom, top)
    requires Present(h, memory, bottom)
    ensures forall a | a in memory && a < bottom :: a in after && after[a] == memory[a]
    ensures forall i | 0 <= i < |segments| :: Copied(memory, after, segments[i])
  {
    after := memory;
    for i := 0 to |segments|
      invariant forall a | a in memory && a < bottom :: a in after && after[a] == memory[a]
      invariant forall j | 0 <= j < i :: Copied(memory, after, segments[j])
    {
      var g := segments[i];
      SegmentInMemory(h, g, memory, bottom, top);
      ghost var was := after;
      after := Copy(after, g.from0, g.to0, g.size);
      forall j | 0 <= j < i + 1 ensures Copied(memory, after, segments[j]) {
        if j < i {
          assert Apart(segments[j], segments[i]) && SegmentOk(h, segments[j], bottom, top);
          StillCopied(memory, was, after, segments[j], g);
        } else {
          JustCopied(memory, was, after, g, bottom);
        }
      }
    }
  }

  ghost predicate Copied(before: Memory, after: Memory, g: Segment) {
    forall k | 0 <= k < g.size :: CopiedAt(before, after, g.from0, g.to0, k)
  }

  lemma SegmentInMemory(h: Heap, g: Segment, memory: Memory, bottom: int, top: int)
    requires SegmentOk(h, g, bottom, top)
    requires Present(h, memory, bottom)
    ensures forall a | g.from0 <= a < g.from0 + g.size :: a in memory && a < bottom
    ensures g.size > 0 ==> g.from0 + g.size <= g.to0
  {
    assert BlockPresent(h.blocks[g.block], memory, bottom);
  }

  lemma StillCopied(memory: Memory, was: Memory, after: Memory, g: Segment, other: Segment)
    requires Copied(memory, was, g) && g.to0 + g.size <= other.to0
    requires forall a | a in was && !(other.to0 <= a < other.to0 + other.size) :: a in after && after[a] == was[a]
    ensures Copied(memory, after, g)
  {
    forall k | 0 <= k < g.size ensures CopiedAt(memory, after, g.from0, g.to0, k) {
      assert CopiedAt(memory, was, g.from0, g.to0, k);
    }
  }

  lemma JustCopied(memory: Memory, was: Memory, after: Memory, g: Segment, bottom: int)
    requires forall a | a in memory && a < bottom :: a in was && was[a] == memory[a]
    requires forall a | g.from0 <= a < g.from0 + g.size :: a in memory && a < bottom
    requires Copied(was, after, g)
    ensures Copied(memory, after, g)
  {
    forall k | 0 <= k < g.size ensures CopiedAt(memory, after, g.from0, g.to0, k) {
      assert CopiedAt(was, after, g.from0, g.to0, k);
      assert g.from0 + k in memory;
    }
  }

  // ---------------------------------------------------------------------------
  // How often a pointer is moved.

  /** In how many of the first `n` marks a cell is listed. */
  function Listings(marks: Marks, keys: seq<Key>, a: int, n: nat): nat
    requires n <= |keys| && forall key | key in keys :: key in marks
  {
    if n == 0 then 0 else Listings(marks, keys, a, n - 1) + if a in marks[keys[n - 1]].slots then 1 else 0
  }

  /** Marks for the same place are covered by the same segment. */
  lemma SameOwner(h: Heap, marks: Marks, keys: seq<Key>, segments: seq<Segment>, owner: seq<nat>, bottom: int, top: int, i: nat, j: nat)
    requires Fitting(h, marks, keys) && |owner| == |keys| && Partitioned(h, marks, keys, segments, owner, bottom, top)
    requires i < |keys| && j < |keys| && keys[i].block == keys[j].block && keys[i].target == keys[j].target
    ensures owner[i] == owner[j]
  {
    assert Covers(segments[owner[i]], keys[i], marks[keys[i]].size) && Covers(segments[owner[j]], keys[j], marks[keys[j]].size);
    if owner[i] < owner[j] {
      NothingShared(segments[owner[i]], segments[owner[j]], keys[i].target);
      assert false;
    }
    if owner[j] < owner[i] {
      NothingShared(segments[owner[j]], segments[owner[i]], keys[i].target);
      assert false;
    }
  }

  lemma NothingShared(a: Segment, b: Segment, p: int)
    requires Apart(a, b) && a.block == b.block
    ensures !(a.from0 <= p <= a.from0 + a.size && b.from0 <= p <= b.from0 + b.size)
  {
  }

  /** Every mark is filed under the block it starts in. */
  ghost predicate Filed(h: Heap, keys: seq<Key>) {
    forall j | 0 <= j < |keys| :: Managed(h.blocks, keys[j].target) && keys[j].block == BlockOf(h.blocks, keys[j].target)
  }

  /** All marks that list a cell are covered by the same segment. */
  lemma ListedMarksShareSegment(h: Heap, marks: Marks, keys: seq<Key>, segments: seq<Segment>, owner: seq<nat>,
                                bottom: int, top: int, a: int, i: nat, j: nat)
    requires Fitting(h, marks, keys) && |owner| == |keys| && Partitioned(h, marks, keys, segments, owner, bottom, top)
    requires Filed(h, keys) && i < |keys| && j < |keys| && a in marks[keys[i]].slots && a in marks[keys[j]].slots
    ensures owner[i] == owner[j]
  {
    assert h.memory[a] == Pointer(keys[i].target) && h.memory[a] == Pointer(keys[j].target);
    SameOwner(h, marks, keys, segments, owner, bottom, top, i, j);
  }

  lemma {:induction false} ShiftIsProduct(marks: Marks, keys: seq<Key>, segments: seq<Segment>, owner: seq<nat>, a: int, n: nat, d: int)
    requires n <= |owner| <= |keys| && (forall j | 0 <= j < |owner| :: owner[j] < |segments|)
    requires forall key | key in keys :: key in marks
    requires forall j | 0 <= j < n && a in marks[keys[j]].slots :: segments[owner[j]].to0 - segments[owner[j]].from0 == d
    ensures Shift(marks, keys, segments, owner, a, n) == Listings(marks, keys, a, n) * d
  {
    if n > 0 {
      ShiftIsProduct(marks, keys, segments, owner, a, n - 1, d);
      Distribute(Listings(marks, keys, a, n - 1), d);
    }
  }

  /** A pointer is moved once for every mark it is listed under. */
  lemma ShiftCountsListings(h: Heap, marks: Marks, keys: seq<Key>, segments: seq<Segment>, owner: seq<nat>,
                            bottom: int, top: int, i: nat, a: int)
    requires Fitting(h, marks, keys) && |owner| == |keys| && Partitioned(h, marks, keys, segments, owner, bottom, top)
    requires Filed(h, keys) && i < |keys| && a in marks[keys[i]].slots
    ensures var g := segments[owner[i]];
      Shift(marks, keys, segments, owner, a, |keys|) == Listings(marks, keys, a, |keys|) * (g.to0 - g.from0)
  {
    forall j | 0 <= j < |keys| && a in marks[keys[j]].slots ensures owner[j] == owner[i] {
      ListedMarksShareSegment(h, marks, keys, segments, owner, bottom, top, a, i, j);
    }
    ShiftIsProduct(marks, keys, segments, owner, a, |keys|, segments[owner[i]].to0 - segments[owner[i]].from0);
  }

  lemma Distribute(n: int, d: int)
    ensures n * d + d == (n + 1) * d
  {
  }

  /** A listed pointer ends up right exactly when it is listed under one mark. */
  lemma RightWhenListedOnce(h: Heap, marks: Marks, keys: seq<Key>, segments: seq<Segment>, owner: seq<nat>,
                            bottom: int, top: int, memory: Memory, i: nat, a: int)
    requires Fitting(h, marks, keys) && |owner| == |keys| && Partitioned(h, marks, keys, segments, owner, bottom, top)
    requires Filed(h, keys)
    requires forall j | 0 <= j < |keys| :: keys[j].target < bottom
    requires MovedSoFar(h, marks, keys, segments, owner, |keys|, memory)
    requires i < |keys| && a in marks[keys[i]].slots
    ensures a in memory
    ensures var g := segments[owner[i]];
      memory[a] == Pointer(g.to0 + (keys[i].target - g.from0)) <==> Listings(marks, keys, a, |keys|) == 1
  {
    var g, n := segments[owner[i]], Listings(marks, keys, a, |keys|);
    ShiftCountsListings(h, marks, keys, segments, owner, bottom, top, i, a);
    assert Covers(g, keys[i], marks[keys[i]].size) && SegmentOk(h, g, bottom, top);
    SlotMoved(h, marks, keys, segments, owner, memory, i, a);
    RightIfOnce(keys[i].target, Shift(marks, keys, segments, owner, a, |keys|), n, g);
  }

  /** A listed cell points to what the mark marks, and has been moved. */
  lemma SlotMoved(h: Heap, marks: Marks, keys: seq<Key>, segments: seq<Segment>, owner: seq<nat>, memory: Memory, i: nat, a: int)
    requires Fitting(h, marks, keys) && |owner| == |keys| && (forall j | 0 <= j < |owner| :: owner[j] < |segments|)
    requires MovedSoFar(h, marks, keys, segments, owner, |keys|, memory)
    requires i < |keys| && a in marks[keys[i]].slots
    ensures a in memory && memory[a] == Moved(Pointer(keys[i].target), Shift(marks, keys, segments, owner, a, |keys|))
  {
  }

  lemma RightIfOnce(target: int, shift: int, n: int, g: Segment)
    requires shift == n * (g.to0 - g.from0) && g.from0 < g.to0
    ensures Moved(Pointer(target), shift) == Pointer(g.to0 + (target - g.from0)) <==> n == 1
  {
    OnceOnly(n, g.to0 - g.from0);
  }

  /** A listed cell points to what the mark marks. */
  lemma SlotPoints(h: Heap, marks: Marks, keys: seq<Key>, i: nat, a: int)
    requires Fitting(h, marks, keys) && i < |keys| && a in marks[keys[i]].slots
    ensures a in h.memory && h.memory[a] == Pointer(keys[i].target)
  {
  }

  lemma OnceOnly(n: int, d: int)
    requires d > 0
    ensures n * d == d <==> n == 1
  {
    if n > 1 { assert (n - 1) * d > 0; }
    if n < 1 { assert n * d <= 0; }
  }
}
