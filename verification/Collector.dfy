/** The moving garbage collector: mark everything reachable, merge what overlaps or touches into
    segments, redirect all pointers into them, and copy them. */
module Collector {
  import opened Values

  /** A memory cell holds a pointer, or something the collector does not look into. */
  datatype Cell = Raw(content: int) | Pointer(target: int)

  type Memory = map<int, Cell>

  datatype Block = Block(base: int, size: nat, allocation: nat)

  /** What a guide, a root or a tracked object shows to the collector: a pointer to `count` objects
      laid out as `guide` says, a pointer to bytes without pointers in them, a tracked object, or
      a backlink. */
  datatype Visit =
    | VisitSequence(slot: int, guide: nat, count: nat)
    | VisitRaw(slot: int, bytes: nat)
    | VisitObject(id: nat)
    | VisitBacklink(id: nat)

  datatype Task = BlockTask(target: int, guide: nat, count: nat) | ObjectTask(id: nat) | BacklinkTask(id: nat)

  /** The visits made for a task, and, for memory, how many cells it covers. */
  datatype Scan = Scan(visits: seq<Visit>, size: nat)

  /** A reachable piece of memory: where it starts and how it was visited. */
  datatype Key = Key(block: nat, target: int, guide: Option<nat>, count: nat)

  /** How much memory a mark covers, and the pointers to it that must be redirected. */
  datatype Info = Info(size: nat, slots: set<int>)

  type Marks = map<Key, Info>

  predicate InBlock(b: Block, p: int) { b.base <= p < b.base + b.size }

  ghost predicate Disjoint(blocks: seq<Block>) {
    forall i, j | 0 <= i < j < |blocks| ::
      blocks[i].base + blocks[i].size <= blocks[j].base || blocks[j].base + blocks[j].size <= blocks[i].base
  }

  ghost predicate Managed(blocks: seq<Block>, p: int) { exists i :: 0 <= i < |blocks| && InBlock(blocks[i], p) }

  /** The heap: its blocks, what memory holds, and how everything in it is to be visited. */
  datatype Heap = Heap(blocks: seq<Block>, memory: Memory, root: seq<Visit>, scan: Task -> Scan)

  /** The block that holds the cell `p`. */
  ghost function BlockOf(blocks: seq<Block>, p: int): (i: nat)
    requires Managed(blocks, p)
    ensures i < |blocks| && InBlock(blocks[i], p)
    ensures Disjoint(blocks) ==> forall j | 0 <= j < |blocks| && InBlock(blocks[j], p) :: j == i
  {
    var i :| 0 <= i < |blocks| && InBlock(blocks[i], p);
    i
  }

  ghost predicate PointsIntoHeap(h: Heap, slot: int) {
    slot in h.memory && h.memory[slot].Pointer? && Managed(h.blocks, h.memory[slot].target)
  }

  /** What the collector checks of a visit made for a piece of memory, or for something outside. */
  ghost predicate VisitOk(h: Heap, v: Visit, region: Option<(int, nat)>) {
    match v
    case VisitSequence(slot, _, count) => count > 0 ==> PointsIntoHeap(h, slot) && SlotOk(h, slot, region)
    case VisitRaw(slot, bytes) =>
      PointsIntoHeap(h, slot) && SlotOk(h, slot, region) && Fits(h, h.memory[slot].target, bytes)
    case _ => true
  }

  /** The cells from `target` on, up to `bytes` of them, are in one block. */
  ghost predicate Fits(h: Heap, target: int, bytes: nat) {
    Managed(h.blocks, target)
    && var b := h.blocks[BlockOf(h.blocks, target)];
    target + bytes <= b.base + b.size
  }

  ghost predicate SlotOk(h: Heap, slot: int, region: Option<(int, nat)>) {
    match region
    case None => !Managed(h.blocks, slot)
    case Some((from0, size)) => from0 <= slot < from0 + size
  }

  /** What has to be marked because of a visit, if anything. */
  function TaskOf(h: Heap, v: Visit): Option<Task> {
    match v
    case VisitSequence(slot, guide, count) =>
      if count > 0 && slot in h.memory && h.memory[slot].Pointer? then Some(BlockTask(h.memory[slot].target, guide, count))
      else None
    case VisitRaw(_, _) => None
    case VisitObject(id) => Some(ObjectTask(id))
    case VisitBacklink(id) => Some(BacklinkTask(id))
  }

  ghost predicate Leads(h: Heap, visits: seq<Visit>, universe: set<Task>) {
    forall i | 0 <= i < |visits| && TaskOf(h, visits[i]).Some? :: TaskOf(h, visits[i]).value in universe
  }

  ghost predicate TaskOk(h: Heap, t: Task) {
    match t
    case BlockTask(target, _, _) =>
      && (forall i | 0 <= i < |h.scan(t).visits| :: VisitOk(h, h.scan(t).visits[i], Some((target, h.scan(t).size))))
      && Fits(h, target, h.scan(t).size)
    case _ => forall i | 0 <= i < |h.scan(t).visits| :: VisitOk(h, h.scan(t).visits[i], None)
  }

  /** The finitely many tasks in `universe` are all that can come up, and all visits pass the
      collector's checks. */
  ghost predicate WellFormed(h: Heap, universe: set<Task>) {
    && Disjoint(h.blocks)
    && (forall i | 0 <= i < |h.root| :: VisitOk(h, h.root[i], None)) && Leads(h, h.root, universe)
    && (forall t | t in universe :: TaskOk(h, t) && Leads(h, h.scan(t).visits, universe))
  }

  // ---------------------------------------------------------------------------
  // What can be reached.

  ghost predicate LeadsTo(h: Heap, visits: seq<Visit>, t: Task) { exists v :: v in visits && TaskOf(h, v) == Some(t) }

  /** The root leads to the first task, and every task to the next. */
  ghost predicate Chain(h: Heap, p: seq<Task>) {
    && p != [] && LeadsTo(h, h.root, p[0])
    && forall i | 0 <= i < |p| - 1 :: LeadsTo(h, h.scan(p[i]).visits, p[i + 1])
  }

  ghost predicate ChainTo(h: Heap, p: seq<Task>, t: Task) { Chain(h, p) && p[|p| - 1] == t }

  ghost predicate Reachable(h: Heap, t: Task) { exists p :: ChainTo(h, p, t) }

  /** The visit is shown by the root or by something that can be reached from it. */
  ghost predicate ShownIn(h: Heap, v: Visit) { v in h.root || exists t :: Reachable(h, t) && v in h.scan(t).visits }

  lemma RootReaches(h: Heap, v: Visit)
    requires v in h.root && TaskOf(h, v).Some?
    ensures Reachable(h, TaskOf(h, v).value)
  {
    assert ChainTo(h, [TaskOf(h, v).value], TaskOf(h, v).value);
  }

  lemma TaskReaches(h: Heap, t: Task, v: Visit)
    requires Reachable(h, t) && v in h.scan(t).visits && TaskOf(h, v).Some?
    ensures Reachable(h, TaskOf(h, v).value)
  {
    var p :| ChainTo(h, p, t);
    var longer := p + [TaskOf(h, v).value];
    forall i | 0 <= i < |longer| - 1 ensures LeadsTo(h, h.scan(longer[i]).visits, longer[i + 1]) {
      if i < |p| - 1 { assert LeadsTo(h, h.scan(p[i]).visits, p[i + 1]); }
    }
    assert ChainTo(h, longer, TaskOf(h, v).value);
  }

  /** Of all tasks that can come up, those that can be reached do. */
  lemma ReachableSuffice(h: Heap, universe: set<Task>)
    requires WellFormed(h, universe)
    ensures WellFormed(h, set t | t in universe && Reachable(h, t))
  {
    var reached := set t | t in universe && Reachable(h, t);
    forall i | 0 <= i < |h.root| && TaskOf(h, h.root[i]).Some? ensures TaskOf(h, h.root[i]).value in reached {
      RootReaches(h, h.root[i]);
    }
    forall t | t in reached ensures TaskOk(h, t) && Leads(h, h.scan(t).visits, reached) {
      var visits := h.scan(t).visits;
      assert Leads(h, visits, universe);
      forall i | 0 <= i < |visits| && TaskOf(h, visits[i]).Some? ensures TaskOf(h, visits[i]).value in reached {
        TaskReaches(h, t, visits[i]);
      }
    }
  }

  // ---------------------------------------------------------------------------
  // Marking.

  /** The mark for `target`, `guide` and `count` lists `slot`, and covers `bytes`. */
  ghost predicate Listed(h: Heap, marks: Marks, target: int, guide: Option<nat>, count: nat, slot: int, bytes: nat) {
    Managed(h.blocks, target) && ListedIn(marks, Key(BlockOf(h.blocks, target), target, guide, count), slot, bytes)
  }

  predicate ListedIn(marks: Marks, key: Key, slot: int, bytes: nat) {
    key in marks && slot in marks[key].slots && bytes <= marks[key].size
  }

  /** The visit has been recorded. */
  ghost predicate Noted(h: Heap, marks: Marks, objects: set<nat>, backlinks: set<nat>, v: Visit) {
    match v
    case VisitSequence(slot, guide, count) =>
      count == 0 || (slot in h.memory && h.memory[slot].Pointer?
                     && Listed(h, marks, h.memory[slot].target, Some(guide), count, slot, 0))
    case VisitRaw(slot, bytes) =>
      slot in h.memory && h.memory[slot].Pointer? && Listed(h, marks, h.memory[slot].target, None, 0, slot, bytes)
    case VisitObject(id) => id in objects
    case VisitBacklink(id) => id in backlinks
  }

  /** Marks are never dropped and only grow. */
  ghost predicate Grows(before: Marks, after: Marks) {
    forall key | key in before ::
      key in after && before[key].slots <= after[key].slots && before[key].size <= after[key].size
  }

  /** The only slot that may have been added is `slot`, to the mark `key`, and the only size of bytes
      without pointers that may have changed is that mark's, to `bytes`. */
  ghost predicate AddsOnly(before: Marks, after: Marks, key: Key, slot: int, bytes: nat) {
    && (forall k, s | k in after && s in after[k].slots :: (k in before && s in before[k].slots) || (k == key && s == slot))
    && (forall k | k in after :: SizeStays(before, after, k) || (k == key && after[k].size == bytes))
  }

  predicate SizeStays(before: Marks, after: Marks, k: Key)
    requires k in after
  {
    k.guide.Some? || (k in before && after[k].size == before[k].size)
  }

  lemma RecordAdds(before: Marks, key: Key, info: Info, slot: int, bytes: nat)
    requires key !in before ==> info == Info(bytes, {slot})
    requires key in before ==> info.slots == before[key].slots + {slot} && before[key].size <= info.size
    requires key in before && key.guide.None? ==> info.size == before[key].size || info.size == bytes
    ensures Grows(before, before[key := info]) && AddsOnly(before, before[key := info], key, slot, bytes)
  {
  }

  function BytesOf(v: Visit): nat { if v.VisitRaw? then v.bytes else 0 }

  /** The mark under which a visit is recorded, if it is recorded under one. */
  ghost function KeyOf(h: Heap, v: Visit): Option<Key> {
    match v
    case VisitSequence(slot, guide, count) =>
      if count > 0 && PointsIntoHeap(h, slot) then
        Some(Key(BlockOf(h.blocks, h.memory[slot].target), h.memory[slot].target, Some(guide), count))
      else None
    case VisitRaw(slot, bytes) =>
      if PointsIntoHeap(h, slot) then Some(Key(BlockOf(h.blocks, h.memory[slot].target), h.memory[slot].target, None, 0)) else None
    case _ => None
  }

  /** Nothing has been added but what the visit shows. */
  ghost predicate AddsVisit(h: Heap, before: Marks, after: Marks, v: Visit) {
    after == before || (KeyOf(h, v).Some? && AddsOnly(before, after, KeyOf(h, v).value, v.slot, BytesOf(v)))
  }

  /** Every slot of every mark comes from a visit that was made, and so does the size of every mark
      for bytes without pointers. */
  ghost predicate Traced(h: Heap, marks: Marks, history: set<Visit>) {
    && (forall key, s | key in marks && s in marks[key].slots :: FromVisit(h, history, key, s))
    && (forall key | key in marks :: SizeFromVisit(h, history, key, marks[key].size))
  }

  ghost predicate SizeFromVisit(h: Heap, history: set<Visit>, key: Key, bytes: nat) {
    key.guide.None? ==> exists v :: v in history && v.VisitRaw? && KeyOf(h, v) == Some(key) && v.bytes == bytes
  }

  ghost predicate FromVisit(h: Heap, history: set<Visit>, key: Key, s: int) {
    exists v :: v in history && KeyOf(h, v) == Some(key) && v.slot == s
  }

  ghost predicate AllNoted(h: Heap, marks: Marks, objects: set<nat>, backlinks: set<nat>, visits: seq<Visit>) {
    forall i | 0 <= i < |visits| :: Noted(h, marks, objects, backlinks, visits[i])
  }

  /** The memory cell lies outside the heap, or in memory that has been or is being visited. */
  ghost predicate HasHome(h: Heap, started: set<Task>, slot: int) {
    !Managed(h.blocks, slot)
    || exists t :: t in started && t.BlockTask? && t.target <= slot < t.target + h.scan(t).size
  }

  /** A mark describes memory that its slots point to, inside one block; its size is known once the
      memory has been visited. */
  ghost predicate MarkOk(h: Heap, universe: set<Task>, started: set<Task>, key: Key, info: Info) {
    && Managed(h.blocks, key.target) && key.block == BlockOf(h.blocks, key.target)
    && Fits(h, key.target, info.size)
    && (forall s | s in info.slots :: s in h.memory && h.memory[s] == Pointer(key.target) && HasHome(h, started, s))
    && (key.guide.Some? ==>
          var t := BlockTask(key.target, key.guide.value, key.count);
          t in universe && info.size == if t in started then h.scan(t).size else 0)
  }

  lemma MarkStaysOk(h: Heap, universe: set<Task>, started: set<Task>, key: Key, info: Info, t: Task)
    requires MarkOk(h, universe, started, key, info)
    requires key.guide.Some? ==> t != BlockTask(key.target, key.guide.value, key.count)
    ensures MarkOk(h, universe, started + {t}, key, info)
  {
    forall s | s in info.slots ensures HasHome(h, started + {t}, s) { HomeStays(h, started, t, s); }
  }

  lemma HomeStays(h: Heap, started: set<Task>, t: Task, slot: int)
    requires HasHome(h, started, slot)
    ensures HasHome(h, started + {t}, slot)
  {
    if Managed(h.blocks, slot) {
      var u :| u in started && u.BlockTask? && u.target <= slot < u.target + h.scan(u).size;
      assert u in started + {t};
    }
  }

  lemma MarkBegins(h: Heap, universe: set<Task>, started: set<Task>, key: Key, info: Info)
    requires MarkOk(h, universe, started, key, info) && key.guide.Some?
    requires TaskOk(h, BlockTask(key.target, key.guide.value, key.count))
    ensures var t := BlockTask(key.target, key.guide.value, key.count);
      MarkOk(h, universe, started + {t}, key, Info(h.scan(t).size, info.slots))
  {
    var t := BlockTask(key.target, key.guide.value, key.count);
    forall s | s in info.slots ensures HasHome(h, started + {t}, s) { HomeStays(h, started, t, s); }
  }

  lemma StillTraced(h: Heap, before: Marks, after: Marks, history: set<Visit>, v: Visit)
    requires Traced(h, before, history)
    requires AddsVisit(h, before, after, v)
    ensures Traced(h, after, history + {v})
  {
    forall key, s | key in after && s in after[key].slots ensures FromVisit(h, history + {v}, key, s) {
      if key in before && s in before[key].slots {
        var w :| w in history && KeyOf(h, w) == Some(key) && w.slot == s;
        assert w in history + {v};
      } else {
        assert v in history + {v};
      }
    }
    forall key | key in after && key.guide.None? ensures SizeFromVisit(h, history + {v}, key, after[key].size) {
      if SizeStays(before, after, key) {
        assert SizeFromVisit(h, history, key, before[key].size);
        var w :| w in history && w.VisitRaw? && KeyOf(h, w) == Some(key) && w.bytes == before[key].size;
        assert w in history + {v};
      } else {
        assert v in history + {v};
      }
    }
  }

  /** The size of an object does not matter for that. */
  lemma ResizedTraced(h: Heap, marks: Marks, history: set<Visit>, key: Key, size: nat)
    requires Traced(h, marks, history) && key in marks && key.guide.Some?
    ensures Traced(h, marks[key := Info(size, marks[key].slots)], history)
  {
    forall k | k in marks ensures k != key ==> SizeFromVisit(h, history, k, marks[k].size) {}
  }

  class Visitor {
    const heap: Heap
    ghost const universe: set<Task>

    var marks: Marks
    var objects: set<nat>
    var backlinks: set<nat>
    var queue: seq<Task>     // a stack, top first
    ghost var started: set<Task>
    ghost var history: set<Visit>

    constructor (heap: Heap, ghost universe: set<Task>)
      requires WellFormed(heap, universe)
      ensures Valid() && this.heap == heap && this.universe == universe && queue == [] && started == {} && history == {}
    {
      this.heap, this.universe := heap, universe;
      marks, objects, backlinks, queue, started, history := map[], {}, {}, [], {}, {};
    }

    ghost predicate Home(slot: int)
      reads this`started
    {
      HasHome(heap, started, slot)
    }

    ghost predicate Marked(t: Task)
      reads this`marks, this`objects, this`backlinks
    {
      match t
      case BlockTask(target, guide, count) =>
        Managed(heap.blocks, target) && Key(BlockOf(heap.blocks, target), target, Some(guide), count) in marks
      case ObjectTask(id) => id in objects
      case BacklinkTask(id) => id in backlinks
    }

    ghost predicate MarksOk()
      reads this`marks, this`started
    {
      forall key | key in marks :: MarkOk(heap, universe, started, key, marks[key])
    }

    /** Everything that has been marked is waiting in the queue, or has been started on. */
    ghost predicate Tracked()
      reads this`marks, this`objects, this`backlinks, this`queue, this`started
    {
      && (forall t :: Marked(t) <==> t in started || t in queue)
      && (forall t | t in queue :: t in universe && t !in started)
      && (forall i, j | 0 <= i < j < |queue| :: queue[i] != queue[j])
      && started <= universe
    }

    /** All visits made were shown by the root or by a task that has been started on. */
    ghost predicate HistoryOk()
      reads this`history, this`started
    {
      forall v | v in history :: Shown(v)
    }

    ghost predicate Shown(v: Visit)
      reads this`started
    {
      v in heap.root || exists t :: t in started && v in heap.scan(t).visits
    }

    ghost predicate Valid()
      reads this
    {
      Core() && Traced(heap, marks, history) && HistoryOk()
    }

    ghost predicate Core()
      reads this`marks, this`objects, this`backlinks, this`queue, this`started
    {
      WellFormed(heap, universe) && MarksOk() && Tracked()
    }

    /** The block a pointer points into. */
    method FindBlock(p: int) returns (i: nat)
      requires Disjoint(heap.blocks) && Managed(heap.blocks, p)
      ensures i == BlockOf(heap.blocks, p)
    {
      i := 0;
      while !InBlock(heap.blocks[i], p)
        invariant i < |heap.blocks| && forall j | 0 <= j < i :: !InBlock(heap.blocks[j], p)
        decreases |heap.blocks| - i
      {
        i := i + 1;
      }
    }

    /** Add a slot to a mark, making the mark if it is new. */
    method Record(key: Key, slot: int, bytes: nat)
      requires MarksOk() && Home(slot) && slot in heap.memory && heap.memory[slot] == Pointer(key.target)
      requires Managed(heap.blocks, key.target) && key.block == BlockOf(heap.blocks, key.target)
      requires Fits(heap, key.target, bytes) && (key.guide.Some? ==> bytes == 0)
      requires key.guide.Some? ==> var t := BlockTask(key.target, key.guide.value, key.count);
        t in universe && (key !in marks ==> t !in started)
      modifies this`marks
      ensures MarksOk() && Grows(old(marks), marks)
      ensures marks.Keys == old(marks).Keys + {key} && ListedIn(marks, key, slot, bytes)
      ensures AddsOnly(old(marks), marks, key, slot, bytes)
    {
      if key in marks {
        var info := marks[key];
        marks := marks[key := Info(if info.size < bytes then bytes else info.size, info.slots + {slot})];
      } else {
        marks := marks[key := Info(bytes, {slot})];
      }
      RecordAdds(old(marks), key, marks[key], slot, bytes);
    }

    /** A task that has just been marked is put on the queue. */
    method Enqueue(t: Task)
      requires t in universe && t !in started && t !in queue && started <= universe
      requires forall u :: Marked(u) <==> u in started || u in queue || u == t
      requires forall u | u in queue :: u in universe && u !in started
      requires forall i, j | 0 <= i < j < |queue| :: queue[i] != queue[j]
      modifies this`queue
      ensures Tracked() && queue == [t] + old(queue)
    {
      queue := [t] + queue;
    }

    /** A pointer to objects laid out as `guide` says. */
    method VisitSequencePointer(slot: int, guide: nat, count: nat)
      requires Core() && Home(slot)
      requires count > 0 ==> PointsIntoHeap(heap, slot) && BlockTask(heap.memory[slot].target, guide, count) in universe
      modifies this`marks, this`queue
      ensures Core() && Grows(old(marks), marks)
      ensures Noted(heap, marks, objects, backlinks, VisitSequence(slot, guide, count))
      ensures if count == 0 then marks == old(marks)
              else AddsOnly(old(marks), marks, Key(BlockOf(heap.blocks, heap.memory[slot].target), heap.memory[slot].target, Some(guide), count), slot, 0)
    {
      if count == 0 { return; }
      var target := heap.memory[slot].target;
      var b := FindBlock(target);
      var key := Key(b, target, Some(guide), count);
      if key in marks { AddSlot(key, slot); } else { AddMark(key, slot); }
    }

    /** The right kind of key for what `slot` points to. */
    ghost predicate Fitting(key: Key, slot: int) {
      && slot in heap.memory && heap.memory[slot] == Pointer(key.target) && key.guide.Some?
      && Managed(heap.blocks, key.target) && key.block == BlockOf(heap.blocks, key.target)
      && BlockTask(key.target, key.guide.value, key.count) in universe
    }

    method AddSlot(key: Key, slot: int)
      requires Core() && Home(slot) && Fitting(key, slot) && key in marks
      modifies this`marks
      ensures Core() && Grows(old(marks), marks) && ListedIn(marks, key, slot, 0)
      ensures AddsOnly(old(marks), marks, key, slot, 0)
    {
      Record(key, slot, 0);
      assert marks.Keys == old(marks).Keys;
      assert forall u :: Marked(u) <==> old(Marked(u));
    }

    method AddMark(key: Key, slot: int)
      requires Core() && Home(slot) && Fitting(key, slot) && key !in marks
      modifies this`marks, this`queue
      ensures Core() && Grows(old(marks), marks) && ListedIn(marks, key, slot, 0)
      ensures AddsOnly(old(marks), marks, key, slot, 0)
    {
      var t := BlockTask(key.target, key.guide.value, key.count);
      assert !Marked(t);
      Record(key, slot, 0);
      assert forall u :: Marked(u) <==> old(Marked(u)) || u == t;
      Enqueue(t);
    }

    method VisitRawBytesPointer(slot: int, bytes: nat)
      requires Core() && Home(slot) && PointsIntoHeap(heap, slot) && Fits(heap, heap.memory[slot].target, bytes)
      modifies this`marks
      ensures Core() && Grows(old(marks), marks)
      ensures Noted(heap, marks, objects, backlinks, VisitRaw(slot, bytes))
      ensures AddsOnly(old(marks), marks, Key(BlockOf(heap.blocks, heap.memory[slot].target), heap.memory[slot].target, None, 0), slot, bytes)
    {
      var target := heap.memory[slot].target;
      var b := FindBlock(target);
      Record(Key(b, target, None, 0), slot, bytes);
      assert forall u :: Marked(u) <==> old(Marked(u));
    }

    method VisitTrackedObject(id: nat)
      requires Core() && ObjectTask(id) in universe
      modifies this`objects, this`queue
      ensures Core() && old(objects) <= objects && id in objects
    {
      if id in objects { return; }
      assert !Marked(ObjectTask(id));
      objects := objects + {id};
      Enqueue(ObjectTask(id));
    }

    method VisitBacklink(id: nat)
      requires Core() && BacklinkTask(id) in universe
      modifies this`backlinks, this`queue
      ensures Core() && old(backlinks) <= backlinks && id in backlinks
    {
      if id in backlinks { return; }
      assert !Marked(BacklinkTask(id));
      backlinks := backlinks + {id};
      Enqueue(BacklinkTask(id));
    }

    ghost predicate Seen(visits: seq<Visit>)
      reads this`marks, this`objects, this`backlinks
    {
      AllNoted(heap, marks, objects, backlinks, visits)
    }

    lemma SeenStill(before: Marks, objectsBefore: set<nat>, backlinksBefore: set<nat>, visits: seq<Visit>)
      requires AllNoted(heap, before, objectsBefore, backlinksBefore, visits)
      requires Grows(before, marks) && objectsBefore <= objects && backlinksBefore <= backlinks
      ensures Seen(visits)
    {
      forall i | 0 <= i < |visits| ensures Noted(heap, marks, objects, backlinks, visits[i]) {
        assert Noted(heap, before, objectsBefore, backlinksBefore, visits[i]);
      }
    }

    /** The slot of a visit is at home, and what it leads to is among the possible tasks. */
    ghost predicate Visitable(v: Visit)
      reads this`started
    {
      && (TaskOf(heap, v).Some? ==> TaskOf(heap, v).value in universe)
      && match v
         case VisitSequence(slot, _, count) => count > 0 ==> PointsIntoHeap(heap, slot) && Home(slot)
         case VisitRaw(slot, bytes) => PointsIntoHeap(heap, slot) && Home(slot) && Fits(heap, heap.memory[slot].target, bytes)
         case _ => true
    }

    method Visit(v: Visit)
      requires Valid() && Visitable(v) && Shown(v)
      modifies this`marks, this`objects, this`backlinks, this`queue, this`history
      ensures Valid() && Grows(old(marks), marks) && old(objects) <= objects && old(backlinks) <= backlinks
      ensures Noted(heap, marks, objects, backlinks, v)
    {
      Accept(v);
      history := history + {v};
      StillTraced(heap, old(marks), marks, old(history), v);
    }

    method Accept(v: Visit)
      requires Core() && Visitable(v)
      modifies this`marks, this`objects, this`backlinks, this`queue
      ensures Core() && Grows(old(marks), marks) && old(objects) <= objects && old(backlinks) <= backlinks
      ensures Noted(heap, marks, objects, backlinks, v)
      ensures AddsVisit(heap, old(marks), marks, v)
    {
      match v {
        case VisitSequence(slot, guide, count) =>
          if count > 0 { VisitSequencePointer(slot, guide, count); }
        case VisitRaw(slot, bytes) => VisitRawBytesPointer(slot, bytes);
        case VisitObject(id) => VisitTrackedObject(id);
        case VisitBacklink(id) => VisitBacklink(id);
      }
    }

    lemma OneMoreSeen(visits: seq<Visit>, i: nat)
      requires i < |visits| && Seen(visits[..i]) && Noted(heap, marks, objects, backlinks, visits[i])
      ensures Seen(visits[..i + 1])
    {
      assert visits[..i + 1] == visits[..i] + [visits[i]];
    }

    method VisitAll(visits: seq<Visit>)
      requires Valid() && forall i | 0 <= i < |visits| :: Visitable(visits[i]) && Shown(visits[i])
      modifies this`marks, this`objects, this`backlinks, this`queue, this`history
      ensures Valid() && Grows(old(marks), marks) && old(objects) <= objects && old(backlinks) <= backlinks
      ensures Seen(visits)
    {
      for i := 0 to |visits|
        invariant Valid() && Grows(old(marks), marks) && old(objects) <= objects && old(backlinks) <= backlinks
        invariant Seen(visits[..i])
      {
        ghost var m, o, b := marks, objects, backlinks;
        Visit(visits[i]);
        SeenStill(m, o, b, visits[..i]);
        OneMoreSeen(visits, i);
      }
      assert visits[..|visits|] == visits;
    }

    /** Take a task off the queue.  For memory, its size becomes known. */
    method NextTask() returns (t: Task)
      requires Valid() && queue != []
      modifies this`queue, this`started, this`marks
      ensures Valid() && Grows(old(marks), marks)
      ensures t in universe && t !in old(started) && started == old(started) + {t}
    {
      t := Dequeue();
      Begin(t);
      forall u ensures Marked(u) <==> u in started || u in queue { assert Marked(u) <==> old(Marked(u)); }
      HistoryStays(old(started));
    }

    method Dequeue() returns (t: Task)
      requires Tracked() && queue != []
      modifies this`queue
      ensures t in universe && t !in started && t !in queue && started <= universe
      ensures forall u :: Marked(u) <==> u in started || u in queue || u == t
      ensures forall u | u in queue :: u in universe && u !in started
      ensures forall i, j | 0 <= i < j < |queue| :: queue[i] != queue[j]
    {
      t := queue[0];
      queue := queue[1..];
      assert old(queue) == [t] + queue;
      assert forall u :: u in old(queue) <==> u == t || u in queue;
    }

    lemma HistoryStays(before: set<Task>)
      requires before <= started
      requires forall v | v in history :: v in heap.root || exists t :: t in before && v in heap.scan(t).visits
      ensures HistoryOk()
    {
      forall v | v in history ensures Shown(v) {
        if v !in heap.root { var t :| t in before && v in heap.scan(t).visits; }
      }
    }

    method Begin(t: Task)
      requires WellFormed(heap, universe) && MarksOk() && Marked(t) && t in universe && t !in started
      requires Traced(heap, marks, history)
      modifies this`started, this`marks
      ensures MarksOk() && Grows(old(marks), marks) && marks.Keys == old(marks).Keys && started == old(started) + {t}
      ensures Traced(heap, marks, history)
    {
      assert TaskOk(heap, t);
      ghost var was := marks;
      started := started + {t};
      if t.BlockTask? {
        var b := FindBlock(t.target);
        var key := Key(b, t.target, Some(t.guide), t.count);
        ResizedTraced(heap, marks, history, key, heap.scan(t).size);
        marks := marks[key := Info(heap.scan(t).size, marks[key].slots)];
        MarkBegins(heap, universe, old(started), key, was[key]);
      }
      forall key | key in was && (t.BlockTask? ==> key != Key(BlockOf(heap.blocks, t.target), t.target, Some(t.guide), t.count))
        ensures MarkOk(heap, universe, started, key, was[key])
      {
        MarkStaysOk(heap, universe, old(started), key, was[key], t);
      }
    }

    lemma TaskVisitable(t: Task)
      requires Valid() && t in started
      ensures forall i | 0 <= i < |heap.scan(t).visits| ::
        Visitable(heap.scan(t).visits[i]) && Shown(heap.scan(t).visits[i])
    {
      assert TaskOk(heap, t) && Leads(heap, heap.scan(t).visits, universe);
    }

    /** Everything reachable has been marked and visited. */
    ghost predicate Complete()
      reads this
    {
      && Valid() && queue == [] && Seen(heap.root)
      && forall t | t in started :: Seen(heap.scan(t).visits)
    }

    lemma NotedIsStarted(v: Visit, t: Task)
      requires Valid() && queue == [] && TaskOf(heap, v) == Some(t) && Noted(heap, marks, objects, backlinks, v)
      ensures t in started
    {
      assert Marked(t);
    }

    lemma {:induction false} ChainStarted(p: seq<Task>, i: nat)
      requires Complete() && Chain(heap, p) && i < |p|
      ensures p[i] in started
    {
      var visits := if i == 0 then heap.root else heap.scan(p[i - 1]).visits;
      if i > 0 {
        ChainStarted(p, i - 1);
        assert LeadsTo(heap, heap.scan(p[i - 1]).visits, p[(i - 1) + 1]);
      }
      var v :| v in visits && TaskOf(heap, v) == Some(p[i]);
      var k :| 0 <= k < |visits| && visits[k] == v;
      assert Seen(visits) && Noted(heap, marks, objects, backlinks, visits[k]);
      NotedIsStarted(v, p[i]);
    }

    /** When marking is complete, what has been visited is what can be reached. */
    lemma StartedIffReachable(t: Task)
      requires Complete() && forall u | u in universe :: Reachable(heap, u)
      ensures t in started <==> Reachable(heap, t)
    {
      if Reachable(heap, t) {
        var p :| ChainTo(heap, p, t);
        ChainStarted(p, |p| - 1);
      }
    }

    /** Mark everything that can be reached from the root. */
    method VisitRoot()
      requires Valid() && queue == [] && started == {}
      modifies this
      ensures Complete()
    {
      VisitAll(heap.root);
      while queue != []
        invariant Valid() && Seen(heap.root) && forall t | t in started :: Seen(heap.scan(t).visits)
        decreases universe - started
      {
        ghost var m, o, b, before := marks, objects, backlinks, started;
        var t := NextTask();
        TaskVisitable(t);
        VisitAll(heap.scan(t).visits);
        SeenStill(m, o, b, heap.root);
        forall u | u in before ensures Seen(heap.scan(u).visits) { SeenStill(m, o, b, heap.scan(u).visits); }
      }
    }
  }
}
