/** A whole collection: what the memory holds afterwards. */
module Collection {
  import opened Values
  import opened Collector
  import opened Sweep

  /** `q` is where cell `a` of the old memory is found afterwards: moved with its segment, or in
      place if it never was in the heap. */
  ghost predicate IsPlace(h: Heap, segments: seq<Segment>, a: int, q: int) {
    if Managed(h.blocks, a) then exists i :: 0 <= i < |segments| && MovesCell(segments[i], a, q) else q == a
  }

  predicate MovesCell(g: Segment, a: int, q: int) { g.from0 <= a < g.from0 + g.size && q == g.to0 + (a - g.from0) }

  /** A pointer to `p` must now be a pointer to `q`. */
  ghost predicate IsTarget(h: Heap, segments: seq<Segment>, p: int, q: int) {
    Managed(h.blocks, p) && exists i :: 0 <= i < |segments| && MovesPointer(h, segments[i], p, q)
  }

  ghost predicate MovesPointer(h: Heap, g: Segment, p: int, q: int)
    requires Managed(h.blocks, p)
  {
    g.block == BlockOf(h.blocks, p) && g.from0 <= p <= g.from0 + g.size && q == g.to0 + (p - g.from0)
  }

  /** The outcome of a sweep: `middle` is memory after redirecting, `after` when all is done. */
  ghost predicate Swept(h: Heap, marks: Marks, keys: seq<Key>, segments: seq<Segment>, owner: seq<nat>, bottom: int, top: int,
                        middle: Memory, after: Memory) {
    && Fitting(h, marks, keys) && Filed(h, keys) && |owner| == |keys|
    && Partitioned(h, marks, keys, segments, owner, bottom, top) && Filled(marks, keys, segments, owner)
    && MovedSoFar(h, marks, keys, segments, owner, |keys|, middle)
    && Present(h, h.memory, bottom) && (forall a | a in h.memory :: a < bottom)
    && (forall a | a in middle && a < bottom :: a in after && after[a] == middle[a])
    && (forall i | 0 <= i < |segments| :: Copied(middle, after, segments[i]))
  }

  lemma SegmentCellsManaged(h: Heap, g: Segment, bottom: int, top: int, a: int)
    requires SegmentOk(h, g, bottom, top) && g.from0 <= a < g.from0 + g.size
    ensures Managed(h.blocks, a) && (Disjoint(h.blocks) ==> BlockOf(h.blocks, a) == g.block)
  {
    assert InBlock(h.blocks[g.block], a);
  }

  /** The cell at a place holds what the old cell held after redirecting. */
  lemma PlaceHolds(h: Heap, marks: Marks, keys: seq<Key>, segments: seq<Segment>, owner: seq<nat>, bottom: int, top: int,
                   middle: Memory, after: Memory, a: int, q: int)
    requires Swept(h, marks, keys, segments, owner, bottom, top, middle, after)
    requires a in h.memory && IsPlace(h, segments, a, q)
    ensures q in after && after[q] == middle[a]
  {
    if Managed(h.blocks, a) {
      var i :| 0 <= i < |segments| && MovesCell(segments[i], a, q);
      assert Copied(middle, after, segments[i]);
      assert CopiedAt(middle, after, segments[i].from0, segments[i].to0, a - segments[i].from0);
    }
  }

  /** Different cells go to different places. */
  lemma PlacesDiffer(h: Heap, marks: Marks, keys: seq<Key>, segments: seq<Segment>, owner: seq<nat>, bottom: int, top: int,
                     middle: Memory, after: Memory, a: int, b: int, q: int)
    requires Swept(h, marks, keys, segments, owner, bottom, top, middle, after)
    requires a in h.memory && b in h.memory && IsPlace(h, segments, a, q) && IsPlace(h, segments, b, q)
    ensures a == b
  {
    if Managed(h.blocks, a) && Managed(h.blocks, b) {
      var i :| 0 <= i < |segments| && MovesCell(segments[i], a, q);
      var j :| 0 <= j < |segments| && MovesCell(segments[j], b, q);
      PlacesApart(segments, i, j, q);
    } else if Managed(h.blocks, a) {
      PlacedAbove(h, segments, bottom, top, a, q);
    } else if Managed(h.blocks, b) {
      PlacedAbove(h, segments, bottom, top, b, q);
    }
  }

  lemma PlacesApart(segments: seq<Segment>, i: nat, j: nat, q: int)
    requires i < |segments| && j < |segments|
    requires forall g, k | 0 <= g < k < |segments| :: Apart(segments[g], segments[k])
    requires segments[i].to0 <= q < segments[i].to0 + segments[i].size
    requires segments[j].to0 <= q < segments[j].to0 + segments[j].size
    ensures i == j
  {
    if i < j { assert false; }
    if j < i { assert false; }
  }

  lemma PlacedAbove(h: Heap, segments: seq<Segment>, bottom: int, top: int, a: int, q: int)
    requires forall g | 0 <= g < |segments| :: SegmentOk(h, segments[g], bottom, top)
    requires Managed(h.blocks, a) && IsPlace(h, segments, a, q)
    ensures q >= bottom
  {
    var i :| 0 <= i < |segments| && MovesCell(segments[i], a, q);
    assert SegmentOk(h, segments[i], bottom, top);
  }

  /** A pointer to a cell now points to where the cell is now; so pointers into the middle of
      something, or to overlapping things, still point to the same cells as one another. */
  lemma TargetIsPlace(h: Heap, marks: Marks, keys: seq<Key>, segments: seq<Segment>, owner: seq<nat>, bottom: int, top: int,
                      middle: Memory, after: Memory, p: int, place: int, target: int)
    requires Swept(h, marks, keys, segments, owner, bottom, top, middle, after)
    requires Managed(h.blocks, p) && IsPlace(h, segments, p, place) && IsTarget(h, segments, p, target)
    ensures place == target
  {
    var i :| 0 <= i < |segments| && MovesCell(segments[i], p, place);
    var j :| 0 <= j < |segments| && MovesPointer(h, segments[j], p, target);
    assert SegmentOk(h, segments[i], bottom, top);
    SegmentCellsManaged(h, segments[i], bottom, top, p);
    OneSegment(h, segments, bottom, top, i, j, p);
  }

  lemma OneSegment(h: Heap, segments: seq<Segment>, bottom: int, top: int, i: nat, j: nat, p: int)
    requires i < |segments| && j < |segments| && segments[i].block == segments[j].block
    requires forall g, k | 0 <= g < k < |segments| :: Apart(segments[g], segments[k])
    requires segments[i].from0 <= p <= segments[i].from0 + segments[i].size
    requires segments[j].from0 <= p <= segments[j].from0 + segments[j].size
    ensures i == j
  {
    if i < j { assert false; }
    if j < i { assert false; }
  }

  /** Cells that no mark lists keep what they held. */
  lemma UnlistedKept(h: Heap, marks: Marks, keys: seq<Key>, segments: seq<Segment>, owner: seq<nat>, bottom: int, top: int,
                     middle: Memory, after: Memory, a: int, q: int)
    requires Swept(h, marks, keys, segments, owner, bottom, top, middle, after)
    requires a in h.memory && IsPlace(h, segments, a, q)
    requires forall i | 0 <= i < |keys| :: a !in marks[keys[i]].slots
    ensures q in after && after[q] == h.memory[a]
  {
    PlaceHolds(h, marks, keys, segments, owner, bottom, top, middle, after, a, q);
    NoShift(marks, keys, segments, owner, a, |keys|);
    assert middle[a] == Moved(h.memory[a], 0);
  }

  lemma {:induction false} NoShift(marks: Marks, keys: seq<Key>, segments: seq<Segment>, owner: seq<nat>, a: int, n: nat)
    requires n <= |owner| <= |keys| && (forall j | 0 <= j < |owner| :: owner[j] < |segments|)
    requires forall key | key in keys :: key in marks
    requires forall i | 0 <= i < n :: a !in marks[keys[i]].slots
    ensures Shift(marks, keys, segments, owner, a, n) == 0
  {
    if n > 0 { NoShift(marks, keys, segments, owner, a, n - 1); }
  }

  /** A pointer listed under a mark follows what it points to, exactly when that mark is the only
      one it is listed under. */
  lemma PointerFollows(h: Heap, marks: Marks, keys: seq<Key>, segments: seq<Segment>, owner: seq<nat>, bottom: int, top: int,
                       middle: Memory, after: Memory, i: nat, a: int, q: int)
    requires Swept(h, marks, keys, segments, owner, bottom, top, middle, after)
    requires i < |keys| && a in marks[keys[i]].slots && IsPlace(h, segments, a, q)
    ensures a in h.memory && h.memory[a] == Pointer(keys[i].target) && q in after
    ensures Listings(marks, keys, a, |keys|) == 1 <==> Redirected(h, segments, keys[i].target, after[q])
  {
    PlaceHolds(h, marks, keys, segments, owner, bottom, top, middle, after, a, q);
    var g, p := segments[owner[i]], keys[i].target;
    assert Covers(g, keys[i], marks[keys[i]].size);
    assert p < bottom by {
      assert BlockPresent(h.blocks[keys[i].block], h.memory, bottom) && InBlock(h.blocks[keys[i].block], p);
    }
    RightWhenListedOnce(h, marks, keys, segments, owner, bottom, top, middle, i, a);
    TargetsAgree(h, segments, bottom, top, owner[i], p, after[q]);
  }

  /** The cell is a pointer to where `p` is now. */
  ghost predicate Redirected(h: Heap, segments: seq<Segment>, p: int, c: Cell) {
    c.Pointer? && IsTarget(h, segments, p, c.target)
  }

  lemma TargetsAgree(h: Heap, segments: seq<Segment>, bottom: int, top: int, i: nat, p: int, c: Cell)
    requires i < |segments| && Managed(h.blocks, p) && segments[i].block == BlockOf(h.blocks, p)
    requires segments[i].from0 <= p <= segments[i].from0 + segments[i].size
    requires forall g, k | 0 <= g < k < |segments| :: Apart(segments[g], segments[k])
    ensures Redirected(h, segments, p, c) <==> c == Pointer(segments[i].to0 + (p - segments[i].from0))
  {
    assert MovesPointer(h, segments[i], p, segments[i].to0 + (p - segments[i].from0));
    if Redirected(h, segments, p, c) {
      var j :| 0 <= j < |segments| && MovesPointer(h, segments[j], p, c.target);
      OneSegment(h, segments, bottom, top, i, j, p);
    }
  }

  // ---------------------------------------------------------------------------
  // Listed once means visited in one way.

  lemma {:induction false} ListedAtLeast(marks: Marks, keys: seq<Key>, a: int, n: nat, i: nat)
    requires i < n <= |keys| && (forall key | key in keys :: key in marks) && a in marks[keys[i]].slots
    ensures Listings(marks, keys, a, n) >= 1
  {
    if i < n - 1 { ListedAtLeast(marks, keys, a, n - 1, i); }
  }

  lemma {:induction false} ListedAtLeastTwice(marks: Marks, keys: seq<Key>, a: int, n: nat, i: nat, j: nat)
    requires i < j < n <= |keys| && (forall key | key in keys :: key in marks)
    requires a in marks[keys[i]].slots && a in marks[keys[j]].slots
    ensures Listings(marks, keys, a, n) >= 2
  {
    if j < n - 1 {
      ListedAtLeastTwice(marks, keys, a, n - 1, i, j);
    } else {
      ListedAtLeast(marks, keys, a, n - 1, i);
    }
  }

  lemma {:induction false} ListedAtMostOnce(marks: Marks, keys: seq<Key>, a: int, n: nat, i: nat)
    requires n <= |keys| && (forall key | key in keys :: key in marks)
    requires forall j | 0 <= j < n && a in marks[keys[j]].slots :: j == i
    ensures Listings(marks, keys, a, n) <= if i < n then 1 else 0
  {
    if n > 0 { ListedAtMostOnce(marks, keys, a, n - 1, i); }
  }

  /** All visits of the cell `a` that the root and what it reaches show ask for the same mark: the
      same kind of visit, and for objects the same guide and the same count. */
  ghost predicate VisitedOneWay(h: Heap, a: int) {
    forall v, w | ShowsCell(h, v, a) && ShowsCell(h, w, a) :: KeyOf(h, v) == KeyOf(h, w)
  }

  ghost predicate ShowsCell(h: Heap, v: Visit, a: int) { ShownIn(h, v) && KeyOf(h, v).Some? && v.slot == a }

  /** Marks list exactly the cells that are shown. */
  ghost predicate Recorded(h: Heap, marks: Marks) {
    && (forall v | ShownIn(h, v) && KeyOf(h, v).Some? :: RecordedUnder(marks, KeyOf(h, v).value, v.slot))
    && (forall key, s | key in marks && s in marks[key].slots :: FromShown(h, key, s))
  }

  predicate RecordedUnder(marks: Marks, key: Key, s: int) { key in marks && s in marks[key].slots }

  ghost predicate FromShown(h: Heap, key: Key, s: int) { exists v :: ShowsCell(h, v, s) && KeyOf(h, v) == Some(key) }

  lemma ListedOnceMeansOneWay(h: Heap, marks: Marks, keys: seq<Key>, a: int, i: nat)
    requires Lists(keys, marks.Keys) && Recorded(h, marks) && i < |keys| && a in marks[keys[i]].slots
    ensures Listings(marks, keys, a, |keys|) == 1 <==> VisitedOneWay(h, a)
  {
    assert forall key | key in keys :: key in marks;
    ListedAtLeast(marks, keys, a, |keys|, i);
    if VisitedOneWay(h, a) {
      forall j | 0 <= j < |keys| && a in marks[keys[j]].slots ensures j == i {
        OneWayOneMark(h, marks, keys, a, i, j);
      }
      ListedAtMostOnce(marks, keys, a, |keys|, i);
    } else {
      var v, w :| ShowsCell(h, v, a) && ShowsCell(h, w, a) && KeyOf(h, v) != KeyOf(h, w);
      TwoWaysTwoMarks(h, marks, keys, a, v, w);
    }
  }

  lemma OneWayOneMark(h: Heap, marks: Marks, keys: seq<Key>, a: int, i: nat, j: nat)
    requires Lists(keys, marks.Keys) && Recorded(h, marks) && VisitedOneWay(h, a)
    requires i < |keys| && a in marks[keys[i]].slots && j < |keys| && a in marks[keys[j]].slots
    ensures j == i
  {
    assert FromShown(h, keys[i], a) && FromShown(h, keys[j], a);
    var v :| ShowsCell(h, v, a) && KeyOf(h, v) == Some(keys[i]);
    var w :| ShowsCell(h, w, a) && KeyOf(h, w) == Some(keys[j]);
  }

  lemma TwoWaysTwoMarks(h: Heap, marks: Marks, keys: seq<Key>, a: int, v: Visit, w: Visit)
    requires Lists(keys, marks.Keys) && Recorded(h, marks) && forall key | key in keys :: key in marks
    requires ShowsCell(h, v, a) && ShowsCell(h, w, a) && KeyOf(h, v) != KeyOf(h, w)
    ensures Listings(marks, keys, a, |keys|) >= 2
  {
    assert RecordedUnder(marks, KeyOf(h, v).value, a) && RecordedUnder(marks, KeyOf(h, w).value, a);
    var j :| 0 <= j < |keys| && keys[j] == KeyOf(h, v).value;
    var k :| 0 <= k < |keys| && keys[k] == KeyOf(h, w).value;
    ListedAtLeastTwice(marks, keys, a, |keys|, if j < k then j else k, if j < k then k else j);
  }

  // ---------------------------------------------------------------------------
  // The collection.

  lemma MarksFit(v: Visitor, keys: seq<Key>)
    requires v.Complete() && Sorted(keys) && Lists(keys, v.marks.Keys)
    ensures Fitting(v.heap, v.marks, keys) && Filed(v.heap, keys)
  {
    forall i | 0 <= i < |keys| ensures MarkOk(v.heap, v.universe, v.started, keys[i], v.marks[keys[i]]) {
      assert keys[i] in v.marks;
    }
  }

  /** Marking is complete, and went no further than it had to. */
  ghost predicate Marked(v: Visitor)
    reads v
  {
    v.Complete() && forall t | t in v.universe :: Reachable(v.heap, t)
  }

  /** Mark, merge, redirect and copy.  New memory is given out from `bottom` on. */
  method Collect(h: Heap, ghost universe: set<Task>, bottom: int)
    returns (v: Visitor, after: Memory, segments: seq<Segment>, ghost keys: seq<Key>, ghost owner: seq<nat>, ghost top: int,
             ghost middle: Memory)
    requires WellFormed(h, universe) && Present(h, h.memory, bottom) && forall a | a in h.memory :: a < bottom
    ensures Marked(v) && v.heap == h
    ensures Swept(h, v.marks, keys, segments, owner, bottom, top, middle, after)
  {
    ReachableSuffice(h, universe);
    v := new Visitor(h, set t | t in universe && Reachable(h, t));
    v.VisitRoot();
    var sorted := InOrder(v.marks.Keys);
    MarksFit(v, sorted);
    var memory, end;
    memory, segments, owner, end := MergeAndRedirect(h, v.marks, sorted, bottom);
    keys, top, middle := sorted, end, memory;
    after := CopyAll(h, v.marks, sorted, memory, segments, owner, bottom, end);
  }

  /** Whatever the collector looked at has a place in the new memory. */
  lemma SlotHasPlace(v: Visitor, keys: seq<Key>, segments: seq<Segment>, owner: seq<nat>, bottom: int, top: int,
                     middle: Memory, after: Memory, a: int) returns (q: int)
    requires v.Complete() && Swept(v.heap, v.marks, keys, segments, owner, bottom, top, middle, after)
    requires HasHome(v.heap, v.started, a)
    ensures IsPlace(v.heap, segments, a, q)
  {
    if !Managed(v.heap.blocks, a) {
      q := a;
    } else {
      var t :| t in v.started && t.BlockTask? && t.target <= a < t.target + v.heap.scan(t).size;
      var key := StartedMark(v, t);
      q := MarkedCellPlace(v.heap, v.marks, keys, segments, owner, bottom, top, middle, after, key, a);
    }
  }

  lemma StartedMark(v: Visitor, t: Task) returns (key: Key)
    requires v.Complete() && t in v.started && t.BlockTask?
    ensures key in v.marks && key.target == t.target && v.marks[key].size == v.heap.scan(t).size
  {
    assert v.Marked(t);
    key := Key(BlockOf(v.heap.blocks, t.target), t.target, Some(t.guide), t.count);
    assert MarkOk(v.heap, v.universe, v.started, key, v.marks[key]);
  }

  lemma MarkedCellPlace(h: Heap, marks: Marks, keys: seq<Key>, segments: seq<Segment>, owner: seq<nat>, bottom: int, top: int,
                        middle: Memory, after: Memory, key: Key, a: int) returns (q: int)
    requires Swept(h, marks, keys, segments, owner, bottom, top, middle, after)
    requires key in marks && key.target <= a < key.target + marks[key].size
    ensures Managed(h.blocks, a) && IsPlace(h, segments, a, q)
  {
    var i :| 0 <= i < |keys| && keys[i] == key;
    var g := segments[owner[i]];
    assert Covers(g, key, marks[key].size) && SegmentOk(h, g, bottom, top);
    SegmentCellsManaged(h, g, bottom, top, a);
    q := g.to0 + (a - g.from0);
    assert MovesCell(g, a, q);
  }

  /** Exactly the visits shown by the root and by what it reaches have been recorded. */
  lemma ShownRecorded(v: Visitor)
    requires Marked(v)
    ensures Recorded(v.heap, v.marks)
  {
    forall w | ShownIn(v.heap, w) && KeyOf(v.heap, w).Some? ensures RecordedUnder(v.marks, KeyOf(v.heap, w).value, w.slot) {
      VisitRecorded(v, w);
    }
    forall key, s | key in v.marks && s in v.marks[key].slots ensures FromShown(v.heap, key, s) {
      MarkShown(v, key, s);
    }
  }

  lemma MarkShown(v: Visitor, key: Key, s: int)
    requires Marked(v) && key in v.marks && s in v.marks[key].slots
    ensures FromShown(v.heap, key, s)
  {
    assert FromVisit(v.heap, v.history, key, s);
    var w :| w in v.history && KeyOf(v.heap, w) == Some(key) && w.slot == s;
    HistoryShown(v, w);
    assert ShowsCell(v.heap, w, s);
  }

  lemma HistoryShown(v: Visitor, w: Visit)
    requires Marked(v) && w in v.history
    ensures ShownIn(v.heap, w)
  {
    assert v.Shown(w);
    if w !in v.heap.root {
      var t :| t in v.started && w in v.heap.scan(t).visits;
      v.StartedIffReachable(t);
    }
  }

  lemma VisitRecorded(v: Visitor, w: Visit)
    requires Marked(v) && ShownIn(v.heap, w) && KeyOf(v.heap, w).Some?
    ensures RecordedUnder(v.marks, KeyOf(v.heap, w).value, w.slot)
  {
    VisitNoted(v, w);
  }

  lemma VisitNoted(v: Visitor, w: Visit)
    requires Marked(v) && ShownIn(v.heap, w)
    ensures Noted(v.heap, v.marks, v.objects, v.backlinks, w)
  {
    if w in v.heap.root {
      var i :| 0 <= i < |v.heap.root| && v.heap.root[i] == w;
      assert Noted(v.heap, v.marks, v.objects, v.backlinks, v.heap.root[i]);
    } else {
      var t :| Reachable(v.heap, t) && w in v.heap.scan(t).visits;
      v.StartedIffReachable(t);
      assert v.Seen(v.heap.scan(t).visits);
      var i :| 0 <= i < |v.heap.scan(t).visits| && v.heap.scan(t).visits[i] == w;
      assert Noted(v.heap, v.marks, v.objects, v.backlinks, v.heap.scan(t).visits[i]);
    }
  }

  /** The heap graph is preserved.  Every pointer cell shown by the root, or by an object or memory
      that can be reached from it, has a place in the new memory, and there it points to where its
      target is now, exactly when all that show it show it in the same way. */
  lemma PointersCorrespond(v: Visitor, keys: seq<Key>, segments: seq<Segment>, owner: seq<nat>, bottom: int, top: int,
                           middle: Memory, after: Memory, w: Visit) returns (q: int)
    requires Marked(v) && Swept(v.heap, v.marks, keys, segments, owner, bottom, top, middle, after)
    requires ShownIn(v.heap, w) && KeyOf(v.heap, w).Some?
    ensures IsPlace(v.heap, segments, w.slot, q) && q in after
    ensures VisitedOneWay(v.heap, w.slot) <==> Redirected(v.heap, segments, v.heap.memory[w.slot].target, after[q])
  {
    var key, a := KeyOf(v.heap, w).value, w.slot;
    VisitRecorded(v, w);
    ShownRecorded(v);
    var i :| 0 <= i < |keys| && keys[i] == key;
    assert MarkOk(v.heap, v.universe, v.started, key, v.marks[key]);
    q := SlotHasPlace(v, keys, segments, owner, bottom, top, middle, after, a);
    PointerFollows(v.heap, v.marks, keys, segments, owner, bottom, top, middle, after, i, a, q);
    ListedOnceMeansOneWay(v.heap, v.marks, keys, a, i);
  }

  // ---------------------------------------------------------------------------
  // What is collected.

  /** The root, or something that can be reached from it, needs the cell: it lies in an object that
      can be reached, or in bytes that are shown. */
  ghost predicate Needed(h: Heap, a: int) { InReachable(h, a) || InShownBytes(h, a) }

  ghost predicate InReachable(h: Heap, a: int) { exists t :: Reachable(h, t) && InTask(h, t, a) }

  predicate InTask(h: Heap, t: Task, a: int) { t.BlockTask? && t.target <= a < t.target + h.scan(t).size }

  ghost predicate InShownBytes(h: Heap, a: int) { exists w :: ShownIn(h, w) && InBytes(h, w, a) }

  ghost predicate InBytes(h: Heap, w: Visit, a: int) {
    w.VisitRaw? && PointsIntoHeap(h, w.slot) && h.memory[w.slot].target <= a < h.memory[w.slot].target + w.bytes
  }

  /** A cell of the heap is kept exactly when it is needed. */
  lemma KeptIffNeeded(v: Visitor, keys: seq<Key>, segments: seq<Segment>, owner: seq<nat>, bottom: int, top: int,
                      middle: Memory, after: Memory, a: int)
    requires Marked(v) && Swept(v.heap, v.marks, keys, segments, owner, bottom, top, middle, after)
    requires Managed(v.heap.blocks, a)
    ensures (exists q :: IsPlace(v.heap, segments, a, q)) <==> Needed(v.heap, a)
  {
    if q :| IsPlace(v.heap, segments, a, q) {
      var g :| 0 <= g < |segments| && MovesCell(segments[g], a, q);
      assert CellMarked(v.marks, keys, owner, g, a);
      var j :| 0 <= j < |owner| && owner[j] == g && InMark(v.marks, keys, j, a);
      MarkedIsNeeded(v, keys[j], a);
    }
    if InReachable(v.heap, a) {
      var t :| Reachable(v.heap, t) && InTask(v.heap, t, a);
      v.StartedIffReachable(t);
      var key := StartedMark(v, t);
      var q := MarkedCellPlace(v.heap, v.marks, keys, segments, owner, bottom, top, middle, after, key, a);
    } else if InShownBytes(v.heap, a) {
      var w :| ShownIn(v.heap, w) && InBytes(v.heap, w, a);
      var key := BytesMark(v, w);
      var q := MarkedCellPlace(v.heap, v.marks, keys, segments, owner, bottom, top, middle, after, key, a);
    }
  }

  lemma BytesMark(v: Visitor, w: Visit) returns (key: Key)
    requires Marked(v) && ShownIn(v.heap, w) && w.VisitRaw? && PointsIntoHeap(v.heap, w.slot)
    ensures key in v.marks && key.target == v.heap.memory[w.slot].target && w.bytes <= v.marks[key].size
  {
    key := KeyOf(v.heap, w).value;
    VisitNoted(v, w);
  }

  lemma MarkedIsNeeded(v: Visitor, key: Key, a: int)
    requires Marked(v) && key in v.marks && key.target <= a < key.target + v.marks[key].size
    ensures Needed(v.heap, a)
  {
    assert MarkOk(v.heap, v.universe, v.started, key, v.marks[key]);
    if key.guide.Some? {
      var t := BlockTask(key.target, key.guide.value, key.count);
      assert t in v.started && InTask(v.heap, t, a);
      v.StartedIffReachable(t);
    } else {
      assert SizeFromVisit(v.heap, v.history, key, v.marks[key].size);
      var w :| w in v.history && w.VisitRaw? && KeyOf(v.heap, w) == Some(key) && w.bytes == v.marks[key].size;
      HistoryShown(v, w);
      assert InBytes(v.heap, w, a);
    }
  }

  // ---------------------------------------------------------------------------
  // A heap for which that fails.

  const TWICE_VISITED := Heap(
    [Block(0, 2, 0)], map[0 := Raw(0), 1 := Raw(0), 100 := Pointer(0)],
    [VisitSequence(100, 0, 1), VisitSequence(100, 0, 2)], (t: Task) => Scan([], 1))

  lemma TwiceVisitedManaged(h: Heap)
    requires h == TWICE_VISITED
    ensures Disjoint(h.blocks) && forall p :: Managed(h.blocks, p) <==> 0 <= p < 2
    ensures Managed(h.blocks, 0) && BlockOf(h.blocks, 0) == 0
  {
    forall p ensures Managed(h.blocks, p) <==> 0 <= p < 2 {
      assert InBlock(h.blocks[0], p) <==> 0 <= p < 2;
    }
    assert InBlock(h.blocks[0], 0);
  }

  /** One pointer is shown as pointing to one object and as pointing to two.  All checks pass. */
  lemma TwiceVisitedWellFormed(h: Heap)
    requires h == TWICE_VISITED
    ensures WellFormed(h, {BlockTask(0, 0, 1), BlockTask(0, 0, 2)}) && !VisitedOneWay(h, 100)
    ensures KeyOf(h, VisitSequence(100, 0, 1)) == Some(Key(0, 0, Some(0), 1))
    ensures KeyOf(h, VisitSequence(100, 0, 2)) == Some(Key(0, 0, Some(0), 2))
  {
    TwiceVisitedManaged(h);
    assert PointsIntoHeap(h, 100);
    var v, w := VisitSequence(100, 0, 1), VisitSequence(100, 0, 2);
    assert v == h.root[0] && w == h.root[1];
    assert ShowsCell(h, v, 100) && ShowsCell(h, w, 100) && KeyOf(h, v) != KeyOf(h, w);
  }

  lemma {:induction false} ListedAtMostTwice(marks: Marks, keys: seq<Key>, a: int, n: nat, i: nat, j: nat)
    requires n <= |keys| && (forall key | key in keys :: key in marks) && i != j
    requires forall k | 0 <= k < n && a in marks[keys[k]].slots :: k == i || k == j
    ensures Listings(marks, keys, a, n) <= (if i < n then 1 else 0) + if j < n then 1 else 0
  {
    if n > 0 { ListedAtMostTwice(marks, keys, a, n - 1, i, j); }
  }

  lemma NothingElseShown(h: Heap, key: Key)
    requires h == TWICE_VISITED && FromShown(h, key, 100)
    ensures key == Key(0, 0, Some(0), 1) || key == Key(0, 0, Some(0), 2)
  {
    TwiceVisitedWellFormed(h);
    var w :| ShowsCell(h, w, 100) && KeyOf(h, w) == Some(key);
    assert w in h.root;
  }

  lemma BothRecorded(v: Visitor)
    requires Marked(v) && v.heap == TWICE_VISITED
    ensures RecordedUnder(v.marks, Key(0, 0, Some(0), 1), 100) && RecordedUnder(v.marks, Key(0, 0, Some(0), 2), 100)
  {
    var one, two := VisitSequence(100, 0, 1), VisitSequence(100, 0, 2);
    TwiceVisitedWellFormed(v.heap);
    assert one == v.heap.root[0] && two == v.heap.root[1];
    VisitRecorded(v, one);
    VisitRecorded(v, two);
  }

  lemma TwoListings(v: Visitor, keys: seq<Key>) returns (i: nat)
    requires Marked(v) && v.heap == TWICE_VISITED && Lists(keys, v.marks.Keys) && forall key | key in keys :: key in v.marks
    ensures i < |keys| && keys[i] == Key(0, 0, Some(0), 1) && 100 in v.marks[keys[i]].slots
    ensures Listings(v.marks, keys, 100, |keys|) == 2
  {
    BothRecorded(v);
    ShownRecorded(v);
    i :| 0 <= i < |keys| && keys[i] == Key(0, 0, Some(0), 1);
    var j: nat :| 0 <= j < |keys| && keys[j] == Key(0, 0, Some(0), 2);
    forall k | 0 <= k < |keys| && 100 in v.marks[keys[k]].slots ensures k == i || k == j {
      NothingElseShown(v.heap, keys[k]);
    }
    ListedAtMostTwice(v.marks, keys, 100, |keys|, i, j);
    ListedAtLeastTwice(v.marks, keys, 100, |keys|, if i < j then i else j, if i < j then j else i);
  }

  /** Collecting it moves the object it points to by some distance, and the pointer by twice that. */
  lemma MovedTwice(v: Visitor, keys: seq<Key>, segments: seq<Segment>, owner: seq<nat>, bottom: int, top: int,
                   middle: Memory, after: Memory) returns (place: int)
    requires Marked(v) && v.heap == TWICE_VISITED
    requires Swept(v.heap, v.marks, keys, segments, owner, bottom, top, middle, after)
    ensures IsPlace(v.heap, segments, 0, place) && place >= bottom > 100
    ensures 100 in after && after[100] == Pointer(2 * place)
  {
    place := ShiftedTwice(v, keys, segments, owner, bottom, top);
    StaysBehind(v.heap, v.marks, keys, segments, owner, bottom, top, middle, after, 100);
  }

  lemma ShiftedTwice(v: Visitor, keys: seq<Key>, segments: seq<Segment>, owner: seq<nat>, bottom: int, top: int)
      returns (place: int)
    requires Marked(v) && v.heap == TWICE_VISITED && Fitting(v.heap, v.marks, keys) && Filed(v.heap, keys)
    requires |owner| == |keys| && Partitioned(v.heap, v.marks, keys, segments, owner, bottom, top)
    ensures IsPlace(v.heap, segments, 0, place) && place >= bottom
    ensures Shift(v.marks, keys, segments, owner, 100, |keys|) == 2 * place
  {
    var i := TwoListings(v, keys);
    place := ObjectPlace(v, keys, segments, owner, bottom, top, i);
    ShiftCountsListings(v.heap, v.marks, keys, segments, owner, bottom, top, i, 100);
  }

  /** What a cell of the old memory holds afterwards. */
  lemma StaysBehind(h: Heap, marks: Marks, keys: seq<Key>, segments: seq<Segment>, owner: seq<nat>, bottom: int, top: int,
                    middle: Memory, after: Memory, a: int)
    requires Swept(h, marks, keys, segments, owner, bottom, top, middle, after) && a in h.memory
    ensures a < bottom && a in after && after[a] == Moved(h.memory[a], Shift(marks, keys, segments, owner, a, |keys|))
  {
    assert a in middle;
  }

  lemma ObjectPlace(v: Visitor, keys: seq<Key>, segments: seq<Segment>, owner: seq<nat>, bottom: int, top: int, i: nat)
      returns (place: int)
    requires Marked(v) && v.heap == TWICE_VISITED && i < |keys| && keys[i] == Key(0, 0, Some(0), 1)
    requires Fitting(v.heap, v.marks, keys) && |owner| == |keys| && Partitioned(v.heap, v.marks, keys, segments, owner, bottom, top)
    ensures owner[i] < |segments| && segments[owner[i]].from0 == 0 && segments[owner[i]].to0 == place >= bottom
    ensures IsPlace(v.heap, segments, 0, place)
  {
    TwiceVisitedManaged(v.heap);
    var g := segments[owner[i]];
    assert Covers(g, keys[i], v.marks[keys[i]].size) && SegmentOk(v.heap, g, bottom, top);
    place := g.to0;
    ObjectMarked(v, keys[i]);
    assert MovesCell(g, 0, place);
  }

  lemma ObjectMarked(v: Visitor, key: Key)
    requires Marked(v) && v.heap == TWICE_VISITED && key == Key(0, 0, Some(0), 1) && key in v.marks
    ensures v.marks[key].size == 1
  {
    var t := BlockTask(0, 0, 1);
    assert MarkOk(v.heap, v.universe, v.started, key, v.marks[key]);
    TwiceVisitedManaged(v.heap);
    assert v.Marked(t);
  }

  /** A collection in which a pointer shown with two different counts is moved twice. */
  method CountsMayDiffer(bottom: int) returns (after: Memory, segments: seq<Segment>, ghost place: int)
    requires bottom > 100
    ensures WellFormed(TWICE_VISITED, {BlockTask(0, 0, 1), BlockTask(0, 0, 2)})
    ensures IsPlace(TWICE_VISITED, segments, 0, place) && place >= bottom
    ensures 100 in after && after[100] == Pointer(2 * place)
  {
    var h := TWICE_VISITED;
    TwiceVisitedWellFormed(h);
    var v;
    ghost var keys, owner, top, middle;
    v, after, segments, keys, owner, top, middle := Collect(h, {BlockTask(0, 0, 1), BlockTask(0, 0, 2)}, bottom);
    place := MovedTwice(v, keys, segments, owner, bottom, top, middle, after);
  }
}
