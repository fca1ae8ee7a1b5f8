/** Sending a value in several messages.  Some parts are named by their IDs only; the receiver
    asks for those it cannot find, and the sender sends them in full. */
module PushPull {
  import opened Contents
  import opened Counting
  import opened Values

  /** How the logic of a value marshals it.  Always: without looking for duplicates.  Once: at
      most once in a message.  IfNotKnown: by ID if the receiver has been sent the value before.
      OnRequest: by ID unless it has been asked for. */
  datatype Kind = Always | Once | IfNotKnown | OnRequest

  /** A heap object.  Its parts were allocated before it, so they have smaller addresses. */
  datatype Cell = Cell(kind: Kind, shape: Form, children: seq<nat>)

  predicate IsHeap(h: seq<Cell>) {
    && (forall x, i | 0 <= x < |h| && 0 <= i < |h[x].children| :: h[x].children[i] < x)
    && forall x | 0 <= x < |h| :: Fits(h[x].shape, |h[x].children|)
  }

  type Heap = h: seq<Cell> | IsHeap(h)

  function ContentOf(heap: Heap, x: nat): Content
    requires x < |heap|
  {
    Content(heap[x].shape,
            seq(|heap[x].children|, i requires 0 <= i < |heap[x].children| => ContentOf(heap, heap[x].children[i])))
  }

  predicate HasId(kind: Kind) { kind.IfNotKnown? || kind.OnRequest? }

  /** One value of a message: in full, perhaps with its ID, referring to other values of the same
      message; or just the ID. */
  datatype Entry = Full(shape: Form, id: Option<Id>, references: seq<nat>) | ByName(id0: Id)

  type Message = seq<Entry>

  /** Entry `k` of the message stands for the heap object `of[k]`. */
  ghost predicate Stands(heap: Heap, message: Message, of: seq<nat>, k: nat)
    requires k < |message| == |of|
  {
    of[k] < |heap| &&
    match message[k]
    case Full(shape, id, references) =>
      && shape == heap[of[k]].shape && |references| == |heap[of[k]].children|
      && (forall i | 0 <= i < |references| ::
            references[i] < |of| && of[references[i]] < |heap|
            && ContentOf(heap, of[references[i]]) == ContentOf(heap, heap[of[k]].children[i]))
      && (id.Some? ==> id.value == ContentOf(heap, of[k]))
    case ByName(id) => id == ContentOf(heap, of[k])
  }

  /** What an entry stands for does not depend on the other entries. */
  lemma StandsStill(heap: Heap, before: Message, of: seq<nat>, after: Message, of': seq<nat>, k: nat)
    requires k < |before| == |of| && k < |after| == |of'| && of <= of' && after[k] == before[k]
    requires Stands(heap, before, of, k)
    ensures Stands(heap, after, of', k)
  {
  }

  // ---------------------------------------------------------------------------
  // How little is sent.

  /** Entry `k` is in the form that the kind of its object asks for: by ID only where that is allowed,
      and in full only where it is not, or where the object is demanded.  `known` are the IDs of what
      the receiver has been sent. */
  ghost predicate Apt(heap: Heap, message: Message, of: seq<nat>, demanded: set<nat>, known: set<Id>, k: nat)
    requires k < |message| == |of|
  {
    of[k] < |heap| && if message[k].ByName? then MayBeNamed(heap, known, of[k])
                      else AptInFull(heap, demanded, known, of[k]) && (message[k].id.Some? <==> HasId(heap[of[k]].kind))
  }

  predicate MayBeNamed(heap: Heap, known: set<Id>, x: nat)
    requires x < |heap|
  {
    heap[x].kind.OnRequest? || (heap[x].kind.IfNotKnown? && ContentOf(heap, x) in known)
  }

  predicate AptInFull(heap: Heap, demanded: set<nat>, known: set<Id>, x: nat)
    requires x < |heap|
  {
    x in demanded || !MayBeNamed(heap, known, x)
  }

  /** No object for which duplicates are looked for has two entries, unless it was named first and
      then demanded. */
  ghost predicate NotRepeated(heap: Heap, message: Message, of: seq<nat>, demanded: set<nat>)
    requires |of| == |message|
  {
    forall j, k | 0 <= j < k < |message| && of[j] == of[k] :: MayRepeat(heap, message, of, demanded, j, k)
  }

  predicate MayRepeat(heap: Heap, message: Message, of: seq<nat>, demanded: set<nat>, j: nat, k: nat)
    requires j < |message| == |of| && k < |message|
  {
    of[k] < |heap| && (heap[of[k]].kind.Always? || (message[j].ByName? && message[k].Full? && of[k] in demanded))
  }

  ghost predicate Sparing(heap: Heap, message: Message, of: seq<nat>, demanded: set<nat>, known: set<Id>) {
    && |of| == |message| && NotRepeated(heap, message, of, demanded)
    && forall k | 0 <= k < |message| :: Apt(heap, message, of, demanded, known, k)
  }

  ghost function InFull(message: Message, of: seq<nat>, x: nat): set<nat>
    requires |of| == |message|
  {
    set k | 0 <= k < |message| && of[k] == x && message[k].Full?
  }

  ghost function Named(message: Message, of: seq<nat>, x: nat): set<nat>
    requires |of| == |message|
  {
    set k | 0 <= k < |message| && of[k] == x && message[k].ByName?
  }

  /** What that comes to: an object for which duplicates are looked for is in the message at most once
      in full and at most once by ID; in full only if it is demanded or may not be left to its ID, by
      ID only if it may; and both only if it is demanded, the ID coming first. */
  lemma SparingMeans(heap: Heap, message: Message, of: seq<nat>, demanded: set<nat>, known: set<Id>, x: nat)
    requires Sparing(heap, message, of, demanded, known) && x < |heap| && !heap[x].kind.Always?
    ensures |InFull(message, of, x)| <= 1 && |Named(message, of, x)| <= 1
    ensures InFull(message, of, x) != {} ==> x in demanded || !MayBeNamed(heap, known, x)
    ensures Named(message, of, x) != {} ==> MayBeNamed(heap, known, x)
    ensures forall j, k | j in Named(message, of, x) && k in InFull(message, of, x) :: j < k && x in demanded
    ensures forall k | k in InFull(message, of, x) :: message[k].id.Some? <==> !heap[x].kind.Once?
  {
    forall j, k | 0 <= j < k < |message| && of[j] == of[k] == x ensures message[j].ByName? && message[k].Full? && x in demanded {
      assert MayRepeat(heap, message, of, demanded, j, k);
    }
    AtMostOne(InFull(message, of, x));
    AtMostOne(Named(message, of, x));
    forall k | 0 <= k < |message| && of[k] == x ensures Apt(heap, message, of, demanded, known, k) {}
  }

  lemma AtMostOne(s: set<nat>)
    requires forall j, k | j in s && k in s :: j == k
    ensures |s| <= 1
  {
    if j :| j in s { assert s == {j}; }
  }

  /** Some entry refers to entry `k`. */
  ghost predicate ReferredTo(message: Message, k: nat) { exists j :: Refers(message, j, k) }

  predicate Refers(message: Message, j: nat, k: nat) { j < |message| && message[j].Full? && k in message[j].references }

  /** The last entry of every object below `n` for which duplicates are looked for can be found. */
  ghost predicate Mapped(heap: Heap, of: seq<nat>, valueMap: map<nat, nat>, n: nat) {
    forall k | 0 <= k < |of| && of[k] < n :: Found(heap, of, valueMap, k)
  }

  predicate Found(heap: Heap, of: seq<nat>, valueMap: map<nat, nat>, k: nat)
    requires k < |of|
  {
    of[k] < |heap| && (heap[of[k]].kind.Always? || (of[k] in valueMap && k <= valueMap[of[k]]))
  }

  /** Where objects from `n` on are found stays the same. */
  ghost predicate SameFrom(before: map<nat, nat>, after: map<nat, nat>, n: nat) {
    forall z | z >= n :: (z in after <==> z in before) && (z in before ==> z in after && after[z] == before[z])
  }

  /** Entries after the first `count` are for objects below `n`. */
  ghost predicate NewBelow(of: seq<nat>, count: nat, n: nat) { forall k | count <= k < |of| :: of[k] < n }

  lemma StillMapped(heap: Heap, before: seq<nat>, mapBefore: map<nat, nat>, after: seq<nat>, mapAfter: map<nat, nat>, m: nat, n: nat)
    requires m <= n && before <= after && Mapped(heap, before, mapBefore, n) && Mapped(heap, after, mapAfter, m)
    requires NewBelow(after, |before|, m) && SameFrom(mapBefore, mapAfter, m)
    ensures Mapped(heap, after, mapAfter, n)
  {
    forall k | 0 <= k < |after| && after[k] < n ensures Found(heap, after, mapAfter, k) {
      if after[k] >= m { assert k < |before| && Found(heap, before, mapBefore, k); }
    }
  }

  /** Appending an entry that is apt and not one too many. */
  lemma OneMoreSparing(heap: Heap, message: Message, of: seq<nat>, demanded: set<nat>, known: set<Id>, e: Entry, x: nat)
    requires Sparing(heap, message, of, demanded, known) && Apt(heap, message + [e], of + [x], demanded, known, |message|)
    requires forall j | 0 <= j < |message| && of[j] == x :: heap[x].kind.Always? || (message[j].ByName? && e.Full? && x in demanded)
    ensures Sparing(heap, message + [e], of + [x], demanded, known)
  {
    var message', of' := message + [e], of + [x];
    forall j, k | 0 <= j < k < |message'| && of'[j] == of'[k] ensures MayRepeat(heap, message', of', demanded, j, k) {
      if k < |message| { assert of[j] == of[k] && MayRepeat(heap, message, of, demanded, j, k); }
    }
    forall k | 0 <= k < |message'| ensures Apt(heap, message', of', demanded, known, k) {
      if k < |message| { assert Apt(heap, message, of, demanded, known, k); }
    }
  }

  /** References do not matter for that. */
  lemma ReferencesSparing(heap: Heap, message: Message, of: seq<nat>, demanded: set<nat>, known: set<Id>, r: nat, references: seq<nat>)
    requires Sparing(heap, message, of, demanded, known) && r < |message| && message[r].Full?
    ensures Sparing(heap, message[r := Full(message[r].shape, message[r].id, references)], of, demanded, known)
  {
    var message' := message[r := Full(message[r].shape, message[r].id, references)];
    forall j, k | 0 <= j < k < |message'| && of[j] == of[k] ensures MayRepeat(heap, message', of, demanded, j, k) {
      assert MayRepeat(heap, message, of, demanded, j, k);
    }
    forall k | 0 <= k < |message'| ensures Apt(heap, message', of, demanded, known, k) {
      assert Apt(heap, message, of, demanded, known, k);
    }
  }

  /** Demanding more leaves what has been sent apt. */
  lemma DemandingMore(heap: Heap, message: Message, of: seq<nat>, demanded: set<nat>, known: set<Id>, x: nat)
    requires Sparing(heap, message, of, demanded, known)
    ensures Sparing(heap, message, of, demanded + {x}, known)
  {
    forall j, k | 0 <= j < k < |message| && of[j] == of[k] ensures MayRepeat(heap, message, of, demanded + {x}, j, k) {
      assert MayRepeat(heap, message, of, demanded, j, k);
    }
    forall k | 0 <= k < |message| ensures Apt(heap, message, of, demanded + {x}, known, k) {
      assert Apt(heap, message, of, demanded, known, k);
    }
  }

  /** Entries after the first `count`, apart from entry `r`, are all referred to. */
  ghost predicate NoneExtra(message: Message, count: nat, r: nat) {
    forall k | count <= k < |message| && k != r :: ReferredTo(message, k)
  }

  lemma ReferredStill(before: Message, after: Message, k: nat)
    requires |before| <= |after| && ReferredTo(before, k)
    requires forall j | 0 <= j < |before| && before[j].Full? :: after[j].Full? && before[j].references <= after[j].references
    ensures ReferredTo(after, k)
  {
    var j :| Refers(before, j, k);
    assert Refers(after, j, k);
  }

  // ---------------------------------------------------------------------------
  // The sender.

  class ValuePusher {
    const heap: Heap
    const receiverHas: set<Id>       // what earlier sessions have sent
    var sent: set<Id>                // what this session has sent
    var remembered: map<Id, nat>

    // The message being built.
    var output: Message
    var valueMap: map<nat, nat>
    ghost var of: seq<nat>
    ghost var demanded: set<nat>     // the objects that must not be left to their IDs

    /** Everything named by ID can be found again. */
    ghost predicate Valid()
      reads this
    {
      && |of| == |output| && (forall k | 0 <= k < |of| :: of[k] < |heap|)
      && (forall id | id in remembered ::
            remembered[id] < |heap| && HasId(heap[remembered[id]].kind) && ContentOf(heap, remembered[id]) == id)
      && (forall k | 0 <= k < |output| && output[k].ByName? :: output[k].id0 in remembered)
      && (forall x | x in valueMap :: x < |heap| && valueMap[x] < |output| && of[valueMap[x]] == x)
      && (forall x | x in valueMap && HasId(heap[x].kind) && output[valueMap[x]].Full? ::
            output[valueMap[x]].id == Some(ContentOf(heap, x)))
    }

    /** No more has been put into the message, and in full, than necessary. */
    ghost predicate Thrifty()
      reads this
    {
      Sparing(heap, output, of, demanded, sent + receiverHas)
    }

    ghost predicate Findable(n: nat)
      reads this
    {
      Mapped(heap, of, valueMap, n)
    }

    constructor (heap: Heap, receiverHas: set<Id>)
      ensures Valid() && this.heap == heap && this.receiverHas == receiverHas
      ensures output == [] && remembered == map[] && sent == {}
    {
      this.heap, this.receiverHas := heap, receiverHas;
      sent, remembered, output, valueMap, of, demanded := {}, map[], [], map[], [], {};
    }

    method StartMarshal()
      requires Valid()
      modifies this`output, this`valueMap, this`of, this`demanded
      ensures Valid() && output == [] && valueMap == map[] && demanded == {} && Thrifty() && Findable(|heap|)
    {
      output, valueMap, of, demanded := [], map[], [], {};
    }

    /** What adding values does to the message: it only grows, by entries that stand for heap
        objects; nothing remembered is forgotten. */
    twostate predicate Grew()
      reads this
    {
      && Valid() && old(|of| == |output|)
      && old(output) <= output && old(of) <= of
      && (forall k {:trigger Stands(heap, output, of, k)} | |old(output)| <= k < |output| :: Stands(heap, output, of, k))
      && (forall id | id in old(remembered) :: id in remembered)
    }

    /** What adding `x`, found at entry `r`, does not do: add anything else than `x` and what it is
        made of, or lose track of anything. */
    twostate predicate AddedOnly(x: nat, r: nat)
      reads this
    {
      && NewBelow(of, |old(of)|, x + 1) && SameFrom(old(valueMap), valueMap, x + 1)
      && NoneExtra(output, |old(output)|, r)
    }

    /** An entry in full would not be one too many for `x`. */
    ghost predicate MayAddInFull(x: nat)
      requires x < |heap|
      reads this
    {
      && |of| == |output| && AptInFull(heap, demanded, sent + receiverHas, x)
      && forall j | 0 <= j < |output| && of[j] == x :: heap[x].kind.Always? || (output[j].ByName? && x in demanded)
    }

    /** Look for a way not to marshal `x`. */
    method TryAvoidMarshalling(x: nat, required: bool) returns (r: Option<nat>)
      requires Valid() && x < |heap| && !heap[x].kind.Always?
      requires Thrifty() && Findable(x + 1) && (required ==> x in demanded)
      modifies this`output, this`of, this`valueMap, this`remembered
      ensures Grew() && Thrifty() && Findable(x + 1)
      ensures r.Some? ==> r.value < |output| && of[r.value] == x && AddedOnly(x, r.value)
      ensures r.Some? && required && HasId(heap[x].kind) ==> output[r.value].Full? && output[r.value].id == Some(ContentOf(heap, x))
      ensures r.None? ==> output == old(output) && of == old(of) && valueMap == old(valueMap) && MayAddInFull(x)
    {
      if x in valueMap {
        var k := valueMap[x];
        if required && output[k].ByName? {
          OnlyNamed(x);
          return None;
        }
        return Some(k);
      }
      NotInMessage(x);
      if heap[x].kind.Once? || required { return None; }
      if heap[x].kind.IfNotKnown? && ContentOf(heap, x) !in sent + receiverHas { return None; }
      var k := AddName(x);
      return Some(k);
    }

    lemma NotInMessage(x: nat)
      requires Valid() && x < |heap| && !heap[x].kind.Always? && Findable(x + 1) && x !in valueMap
      ensures forall j | 0 <= j < |output| :: of[j] != x
    {
    }

    lemma OnlyNamed(x: nat)
      requires Valid() && x < |heap| && !heap[x].kind.Always? && Thrifty() && Findable(x + 1)
      requires x in valueMap && output[valueMap[x]].ByName?
      ensures forall j | 0 <= j < |output| && of[j] == x :: output[j].ByName?
    {
      forall j | 0 <= j < |output| && of[j] == x ensures output[j].ByName? {
        assert Found(heap, of, valueMap, j);
        if j < valueMap[x] { assert MayRepeat(heap, output, of, demanded, j, valueMap[x]); }
      }
    }

    /** Leave `x` to its ID. */
    method AddName(x: nat) returns (r: nat)
      requires Valid() && x < |heap| && HasId(heap[x].kind)
      requires Thrifty() && Findable(x + 1) && MayBeNamed(heap, sent + receiverHas, x) && forall j | 0 <= j < |output| :: of[j] != x
      modifies this`output, this`of, this`valueMap, this`remembered
      ensures Grew() && r < |output| && of[r] == x && Thrifty() && Findable(x + 1) && AddedOnly(x, r)
    {
      var id := ContentOf(heap, x);
      RememberValue(id, x);
      r := AppendName(x, id);
      RecordForDupElimination(x, r);
    }

    method AppendName(x: nat, id: Id) returns (r: nat)
      requires Valid() && x < |heap| && id == ContentOf(heap, x) && id in remembered
      requires Thrifty() && Findable(x) && MayBeNamed(heap, sent + receiverHas, x) && forall j | 0 <= j < |output| :: of[j] != x
      modifies this`output, this`of
      ensures Valid() && Thrifty() && Findable(x)
      ensures r == |old(output)| && output == old(output) + [ByName(id)] && of == old(of) + [x]
    {
      OneMoreSparing(heap, output, of, demanded, sent + receiverHas, ByName(id), x);
      r := |output|;
      output := output + [ByName(id)];
      of := of + [x];
      NewFindable(old(of), x, x);
    }

    lemma NewFindable(before: seq<nat>, x: nat, n: nat)
      requires x >= n && of == before + [x] && Mapped(heap, before, valueMap, n)
      ensures Findable(n)
    {
      forall k | 0 <= k < |of| && of[k] < n ensures Found(heap, of, valueMap, k) { assert Found(heap, before, valueMap, k); }
    }

    /** From now on, `x` is found at entry `r`, its last. */
    method RecordForDupElimination(x: nat, r: nat)
      requires Valid() && x < |heap| && r < |output| && of[r] == x && Findable(x) && NewBelow(of, r + 1, x)
      requires HasId(heap[x].kind) && output[r].Full? ==> output[r].id == Some(ContentOf(heap, x))
      modifies this`valueMap
      ensures Valid() && valueMap == old(valueMap)[x := r] && Findable(x + 1)
    {
      valueMap := valueMap[x := r];
      forall k | 0 <= k < |of| && of[k] < x + 1 ensures Found(heap, of, valueMap, k) {
        if of[k] < x { assert Found(heap, of, old(valueMap), k); }
      }
    }

    method RememberValue(id: Id, x: nat)
      requires Valid() && x < |heap| && HasId(heap[x].kind) && ContentOf(heap, x) == id
      modifies this`remembered
      ensures Valid() && id in remembered && forall i | i in old(remembered) :: i in remembered
    {
      if id in remembered { return; }
      remembered := remembered[id := x];
    }

    /** Marshal `x`, or refer to where it has been marshalled already; `required` forbids leaving
        it to its ID. */
    method AddValue(x: nat, required: bool) returns (r: nat)
      requires Valid() && x < |heap|
      requires Thrifty() && Findable(x + 1) && (required ==> x in demanded)
      modifies this`output, this`of, this`valueMap, this`remembered
      ensures Grew() && r < |output| && of[r] == x
      ensures required && HasId(heap[x].kind) ==> output[r].Full? && output[r].id == Some(ContentOf(heap, x))
      ensures Thrifty() && Findable(x + 1) && AddedOnly(x, r)
      decreases x, 1, 1
    {
      if !heap[x].kind.Always? {
        var avoided := TryAvoidMarshalling(x, required);
        if avoided.Some? { return avoided.value; }
      }
      r := AddAndRecord(x);
    }

    method AddAndRecord(x: nat) returns (r: nat)
      requires Valid() && x < |heap|
      requires Thrifty() && Findable(x) && MayAddInFull(x)
      modifies this`output, this`of, this`valueMap, this`remembered
      ensures Grew() && r < |output| && of[r] == x && output[r].Full?
      ensures HasId(heap[x].kind) ==> output[r].id == Some(ContentOf(heap, x))
      ensures Thrifty() && Findable(x + 1) && AddedOnly(x, r)
      decreases x, 1, 0
    {
      r := AddInFull(x);
      if heap[x].kind.Always? {
        AlwaysFindable(x);
      } else {
        RecordForDupElimination(x, r);
      }
    }

    lemma AlwaysFindable(x: nat)
      requires Valid() && x < |heap| && heap[x].kind.Always? && Findable(x)
      ensures Findable(x + 1)
    {
      forall k | 0 <= k < |of| && of[k] < x + 1 ensures Found(heap, of, valueMap, k) {
        assert of[k] < x ==> Found(heap, of, valueMap, k);
      }
    }

    /** Append the entry for `x`, then fill in its references one by one. */
    method AddInFull(x: nat) returns (r: nat)
      requires Valid() && x < |heap|
      requires Thrifty() && Findable(x) && MayAddInFull(x)
      modifies this`output, this`of, this`valueMap, this`remembered
      ensures Grew() && r < |output| && of[r] == x && output[r].Full?
      ensures HasId(heap[x].kind) ==> output[r].id == Some(ContentOf(heap, x))
      ensures r == |old(output)| && Thrifty() && Findable(x) && Below(r, x) && SameFrom(old(valueMap), valueMap, x)
      decreases x, 0
    {
      ghost var id;
      r, id := StartEntry(x);
      for i := 0 to |heap[x].children|
        invariant r < |output| && output[..r] == old(output) && old(of) <= of && Filling(r, x, id, i)
        invariant forall id | id in old(remembered) :: id in remembered
        invariant Thrifty() && Findable(x) && Below(r, x) && SameFrom(old(valueMap), valueMap, x)
      {
        AddReference(r, x, id, i);
      }
      EntryComplete(r, x, id);
    }

    /** The entries after `r` are for objects below `x`, and are referred to. */
    ghost predicate Below(r: nat, x: nat)
      reads this
    {
      NewBelow(of, r + 1, x) && NoneExtra(output, r + 1, r)
    }

    /** Append the entry for `x`, without references. */
    method StartEntry(x: nat) returns (r: nat, id: Option<Id>)
      requires Valid() && x < |heap| && Thrifty() && Findable(x) && MayAddInFull(x)
      modifies this`output, this`of
      ensures r == |old(output)| && |output| == r + 1 && old(output) <= output && old(of) <= of && Filling(r, x, id, 0)
      ensures Thrifty() && Findable(x) && Below(r, x)
    {
      id := if HasId(heap[x].kind) then Some(ContentOf(heap, x)) else None;
      r := |output|;
      OneMoreSparing(heap, output, of, demanded, sent + receiverHas, Full(heap[x].shape, id, []), x);
      output := output + [Full(heap[x].shape, id, [])];
      of := of + [x];
      NewFindable(old(of), x, x);
    }

    lemma EntryComplete(r: nat, x: nat, id: Option<Id>)
      requires r < |output| && x < |heap| && Filling(r, x, id, |heap[x].children|)
      ensures Stands(heap, output, of, r)
    {
    }

    /** Entry `r`, for `x`, has its first `i` references; the entries after it are complete. */
    ghost predicate Filling(r: nat, x: nat, id: Option<Id>, i: nat)
      requires r < |output|
      reads this
    {
      && Valid() && x < |heap| && of[r] == x && i <= |heap[x].children|
      && output[r].Full? && output[r].shape == heap[x].shape && output[r].id == id
      && id == (if HasId(heap[x].kind) then Some(ContentOf(heap, x)) else None)
      && |output[r].references| == i && References(r, x, i)
      && forall k {:trigger Stands(heap, output, of, k)} | r < k < |output| :: Stands(heap, output, of, k)
    }

    /** The first `i` references of entry `r` go to the first `i` children of `x`. */
    ghost predicate References(r: nat, x: nat, i: nat)
      requires r < |output| && output[r].Full? && x < |heap| && i <= |output[r].references| && i <= |heap[x].children|
      reads this
    {
      forall j | 0 <= j < i ::
        && output[r].references[j] < |of| && of[output[r].references[j]] < |heap|
        && ContentOf(heap, of[output[r].references[j]]) == ContentOf(heap, heap[x].children[j])
    }

    method AddReference(r: nat, x: nat, ghost id: Option<Id>, i: nat)
      requires r < |output| && Filling(r, x, id, i) && i < |heap[x].children|
      requires Thrifty() && Findable(x) && Below(r, x)
      modifies this`output, this`of, this`valueMap, this`remembered
      ensures old(of) <= of && |old(output)| <= |output| && old(output)[..r] == output[..r]
      ensures forall id | id in old(remembered) :: id in remembered
      ensures Filling(r, x, id, i + 1)
      ensures Thrifty() && Findable(x) && Below(r, x) && SameFrom(old(valueMap), valueMap, x)
      decreases x, 0, 0
    {
      ghost var was, ofWas := output, of;
      var c := heap[x].children[i];
      var child := AddValue(c, false);
      StillMapped(heap, ofWas, old(valueMap), of, valueMap, c + 1, x);
      ghost var now := output;
      ReferencesSparing(heap, output, of, demanded, sent + receiverHas, r, output[r].references + [child]);
      SetReferences(r, output[r].references + [child]);
      NothingExtra(was, now, r, child);
      AllStandStill(was, ofWas, now, r);
    }

    /** The entries after `r` still stand for their objects when `r` refers to one more. */
    lemma AllStandStill(was: Message, ofWas: seq<nat>, now: Message, r: nat)
      requires r < |was| == |ofWas| && was <= now && ofWas <= of && |output| == |now| == |of|
      requires forall k | r < k < |output| :: output[k] == now[k]
      requires forall k {:trigger Stands(heap, was, ofWas, k)} | r < k < |was| :: Stands(heap, was, ofWas, k)
      requires forall k {:trigger Stands(heap, now, of, k)} | |was| <= k < |now| :: Stands(heap, now, of, k)
      ensures forall k {:trigger Stands(heap, output, of, k)} | r < k < |output| :: Stands(heap, output, of, k)
    {
      forall k | r < k < |output| ensures Stands(heap, output, of, k) {
        if k < |was| {
          StandsStill(heap, was, ofWas, output, of, k);
        } else {
          StandsStill(heap, now, of, output, of, k);
        }
      }
    }

    /** Once entry `r` refers to the child just added, everything after it is referred to. */
    lemma NothingExtra(was: Message, now: Message, r: nat, child: nat)
      requires r < |was| && was <= now && |output| == |now| && now[r].Full? && output[r].Full?
      requires now[r].references <= output[r].references && child in output[r].references
      requires forall k | 0 <= k < |now| && k != r :: output[k] == now[k]
      requires NoneExtra(was, r + 1, r) && NoneExtra(now, |was|, child)
      ensures NoneExtra(output, r + 1, r)
    {
      forall k | r + 1 <= k < |output| && k != r ensures ReferredTo(output, k) {
        if k == child {
          assert Refers(output, r, k);
        } else if k < |was| {
          ReferredStill(was, output, k);
        } else {
          ReferredStill(now, output, k);
        }
      }
    }

    method SetReferences(r: nat, references: seq<nat>)
      requires Valid() && r < |output| && output[r].Full?
      modifies this`output
      ensures Valid() && output == old(output)[r := Full(old(output)[r].shape, old(output)[r].id, references)]
    {
      var e := output[r];
      output := output[r := Full(e.shape, e.id, references)];
    }

    /** The sender now counts as having sent everything that went out with an ID. */
    method FinishMessage() returns (message: Message)
      requires Valid()
      modifies this`sent
      ensures Valid() && message == output && sent == old(sent) + IdsDefined(message)
    {
      for k := 0 to |output|
        invariant Valid() && sent == old(sent) + IdsDefined(output[..k])
      {
        DefinedStep(output, k);
        if output[k].Full? && output[k].id.Some? { sent := sent + {output[k].id.value}; }
      }
      assert output[..|output|] == output;
      message := output;
    }

    /** The first message.  It holds nothing but `x` and what it is made of, each in the form and no
        more often than the kinds of the objects ask for. */
    method SendInitialValue(x: nat) returns (message: Message, result: nat)
      requires Valid() && x < |heap|
      modifies this
      ensures Valid() && message == output && Understood(heap, message, of)
      ensures result < |message| && of[result] == x
      ensures sent == old(sent) + IdsDefined(message)
      ensures Sparing(heap, message, of, {}, old(sent) + receiverHas) && NoneExtra(message, 0, result)
    {
      StartMarshal();
      result := AddValue(x, false);
      forall k | 0 <= k < |output| ensures Stands(heap, output, of, k) {}
      message := FinishMessage();
    }

    /** The first `i` requests have been answered. */
    ghost predicate Answering(requested: seq<Id>, i: nat)
      requires i <= |requested|
      reads this
    {
      && Valid() && Understood(heap, output, of) && Thrifty() && Findable(|heap|)
      && (forall j | 0 <= j < i :: requested[j] in IdsDefined(output) && requested[j] in remembered)
      && DemandedOnly(requested) && (forall k | 0 <= k < |output| :: Wanted(output, k, requested))
    }

    ghost predicate DemandedOnly(requested: seq<Id>)
      reads this`demanded
    {
      forall x | x in demanded :: x < |heap| && ContentOf(heap, x) in requested
    }

    method AddRequested(requested: seq<Id>, i: nat)
      requires i < |requested| && Answering(requested, i) && requested[i] in remembered
      modifies this`output, this`of, this`valueMap, this`remembered, this`demanded
      ensures Answering(requested, i + 1)
      ensures forall id | id in old(remembered) :: id in remembered
    {
      ghost var was, ofWas := output, of;
      var x := remembered[requested[i]];
      var r := AddDemanded(x);
      forall k | 0 <= k < |was| ensures Stands(heap, output, of, k) {
        StandsStill(heap, was, ofWas, output, of, k);
      }
      DefinedMore(was, output);
      assert output[r].id.value == requested[i];
      StillWanted(was, requested, r);
    }

    method AddDemanded(x: nat) returns (r: nat)
      requires Valid() && x < |heap| && HasId(heap[x].kind) && Thrifty() && Findable(|heap|)
      modifies this`output, this`of, this`valueMap, this`remembered, this`demanded
      ensures Grew() && r < |output| && output[r].Full? && output[r].id == Some(ContentOf(heap, x))
      ensures Thrifty() && Findable(|heap|) && NoneExtra(output, |old(output)|, r) && demanded == old(demanded) + {x}
    {
      DemandingMore(heap, output, of, demanded, sent + receiverHas, x);
      demanded := demanded + {x};
      r := AddValue(x, true);
      StillMapped(heap, old(of), old(valueMap), of, valueMap, x + 1, |heap|);
    }

    lemma StillWanted(was: Message, requested: seq<Id>, r: nat)
      requires was <= output && r < |output| && SentFor(output, r, requested) && NoneExtra(output, |was|, r)
      requires forall k | 0 <= k < |was| :: Wanted(was, k, requested)
      ensures forall k | 0 <= k < |output| :: Wanted(output, k, requested)
    {
      forall k | 0 <= k < |output| ensures Wanted(output, k, requested) {
        if k < |was| {
          assert Wanted(was, k, requested);
          if ReferredTo(was, k) { ReferredStill(was, output, k); }
        }
      }
    }

    /** Send the requested values in full, and what they are made of; fails exactly when asked for an
        ID never mentioned.  The message holds nothing else, and no more in full, or more often, than
        the requests and the kinds of the objects ask for. */
    method RespondToPull(requested: seq<Id>) returns (message: Option<Message>)
      requires Valid()
      modifies this
      ensures Valid()
      ensures message.Some? <==> forall id | id in requested :: id in remembered
      ensures message.Some? ==> message.value == output && Understood(heap, output, of)
      ensures message.Some? ==> forall id | id in requested :: id in IdsDefined(output)
      ensures message.Some? ==> sent == old(sent) + IdsDefined(output)
      ensures message.Some? ==> Sparing(heap, output, of, demanded, old(sent) + receiverHas) && DemandedOnly(requested)
      ensures message.Some? ==> forall k | 0 <= k < |output| :: Wanted(output, k, requested)
      ensures forall id | id in old(remembered) :: id in remembered
    {
      StartMarshal();
      for i := 0 to |requested|
        invariant Answering(requested, i) && sent == old(sent)
        invariant forall id | id in old(remembered) :: id in remembered
      {
        if requested[i] !in remembered { return None; }
        AddRequested(requested, i);
      }
      var sentMessage := FinishMessage();
      message := Some(sentMessage);
    }
  }

  /** Entry `k` is referred to, or has been sent in full under one of the IDs. */
  ghost predicate Wanted(message: Message, k: nat, ids: seq<Id>) { ReferredTo(message, k) || SentFor(message, k, ids) }

  predicate SentFor(message: Message, k: nat, ids: seq<Id>) {
    k < |message| && message[k].Full? && message[k].id.Some? && message[k].id.value in ids
  }

  /** Every entry of the message stands for a heap object. */
  ghost predicate Understood(heap: Heap, message: Message, of: seq<nat>) {
    && |of| == |message| && (forall k | 0 <= k < |of| :: of[k] < |heap|)
    && forall k {:trigger Stands(heap, message, of, k)} | 0 <= k < |message| :: Stands(heap, message, of, k)
  }

  function IdsDefined(message: Message): set<Id> {
    set k | 0 <= k < |message| && message[k].Full? && message[k].id.Some? :: message[k].id.value
  }

  function IdsNamed(message: Message): set<Id> {
    set k | 0 <= k < |message| && message[k].ByName? :: message[k].id0
  }

  /** The ID that an entry is sent under, if any. */
  function EntryIds(e: Entry): set<Id> { if e.Full? && e.id.Some? then {e.id.value} else {} }

  lemma DefinedStep(message: Message, k: nat)
    requires k < |message|
    ensures IdsDefined(message[..k + 1]) == IdsDefined(message[..k]) + EntryIds(message[k])
  {
    var before, after := message[..k], message[..k + 1];
    assert forall j | 0 <= j < k :: after[j] == before[j];
  }

  lemma OneMoreEntry(message: Message, k: nat, ids: set<Id>, missing: set<Id>)
    requires k < |message|
    ensures ids + IdsDefined(message[..k]) + EntryIds(message[k]) == ids + IdsDefined(message[..k + 1])
    ensures missing - IdsDefined(message[..k]) - EntryIds(message[k]) == missing - IdsDefined(message[..k + 1])
  {
    DefinedStep(message, k);
  }

  lemma DefinedMore(before: Message, after: Message)
    requires before <= after
    ensures IdsDefined(before) <= IdsDefined(after)
  {
    assert forall k | 0 <= k < |before| :: before[k] == after[k];
  }

  // ---------------------------------------------------------------------------
  // The receiver.

  datatype Push = Push(values: Message, result: Option<nat>, completed: nat)

  datatype Status = Pull(requested: seq<Id>, request: nat) | WaitForEarlierPull | Ready | Failed(error: string)

  function Shifted(e: Entry, base: nat): Entry {
    match e
    case Full(shape, id, references) =>
      Full(shape, id, seq(|references|, i requires 0 <= i < |references| => base + references[i]))
    case ByName(_) => e
  }

  function AllShifted(message: Message, base: nat): (r: seq<Entry>)
    ensures |r| == |message|
  {
    seq(|message|, k requires 0 <= k < |message| => Shifted(message[k], base))
  }

  /** The values of several messages, one after the other, with references counted from the first. */
  function Together(sets: seq<Message>): seq<Entry> {
    if sets == [] then []
    else
      var before := Together(sets[..|sets| - 1]);
      before + AllShifted(sets[|sets| - 1], |before|)
  }

  /** What the receiver knows: the values received, the IDs they were sent under, the IDs still
      missing, and those found in its registry. */
  datatype Known = Known(values: seq<Entry>, ids: set<Id>, missing: set<Id>, registered: set<Id>)

  /** How a message changes what is known when the IDs `requested` turn out to be new and missing. */
  ghost predicate Took(before: Known, after: Known, message: Message, requested: seq<Id>) {
    && after.values == before.values + AllShifted(message, |before.values|)
    && after.ids == before.ids + IdsDefined(message)
    && before.registered <= after.registered
    && after.missing == (before.missing - IdsDefined(message)) + Listed(requested)
    && Listed(requested) !! before.missing && Listed(requested) !! after.ids
    && Listed(requested) <= IdsNamed(message) && OnceEach(requested)
  }

  /** IDs lead to values sent under them, among the first `n`; every ID a value was sent under does. */
  ghost predicate IdsLead(values: seq<Entry>, valueIds: map<Id, nat>, missing: set<Id>, registered: set<Id>, n: nat)
    requires n <= |values|
  {
    && (forall id | id in valueIds :: valueIds[id] < n
          && values[valueIds[id]].Full? && values[valueIds[id]].id == Some(id))
    && (forall k | 0 <= k < n && values[k].Full? && values[k].id.Some? :: values[k].id.value in valueIds)
    && (forall id | id in missing :: id !in valueIds && id !in registered)
  }

  /** Every ID named among the first `n` values is known, or still missing. */
  ghost predicate NamesSettled(values: seq<Entry>, valueIds: map<Id, nat>, missing: set<Id>, registered: set<Id>, n: nat)
    requires n <= |values|
  {
    forall k | 0 <= k < n && values[k].ByName? ::
      values[k].id0 in valueIds || values[k].id0 in registered || values[k].id0 in missing
  }

  /** The IDs that the first `k` entries name and that are not known, in the order in which they are
      first named. */
  function FirstNamings(message: Message, k: nat, known: set<Id>): (ids: seq<Id>)
    requires k <= |message|
  {
    if k == 0 then []
    else
      var before := FirstNamings(message, k - 1, known);
      var e := message[k - 1];
      if e.ByName? && e.id0 !in known && e.id0 !in before then before + [e.id0] else before
  }

  /** They are all IDs named and not known, once each. */
  lemma {:induction false} FirstNamingsAreNew(message: Message, k: nat, known: set<Id>)
    requires k <= |message|
    ensures OnceEach(FirstNamings(message, k, known))
    ensures Listed(FirstNamings(message, k, known)) == IdsNamed(message[..k]) - known
  {
    if k > 0 {
      FirstNamingsAreNew(message, k - 1, known);
      var before, after, e := message[..k - 1], message[..k], message[k - 1];
      assert forall j | 0 <= j < k - 1 :: after[j] == before[j];
      assert after[k - 1] == e;
      assert IdsNamed(after) == IdsNamed(before) + if e.ByName? then {e.id0} else {};
      var ids := FirstNamings(message, k - 1, known);
      assert e.ByName? ==> Listed(ids + [e.id0]) == Listed(ids) + {e.id0};
    }
  }

  class ValuePuller {
    var sets: seq<Message>       // the messages received
    var values: seq<Entry>       // of all messages, with references counted from the first
    var valueIds: map<Id, nat>
    var missing: set<Id>
    var registered: set<Id>
    var nextRequest: nat
    var completed: nat
    var result: Option<nat>
    var started: bool

    ghost predicate Recorded()
      reads this`sets, this`values
    {
      values == Together(sets)
    }

    ghost predicate Valid()
      reads this`values, this`valueIds, this`missing, this`registered
    {
      IdsLead(values, valueIds, missing, registered, |values|) && NamesSettled(values, valueIds, missing, registered, |values|)
    }

    constructor ()
      ensures Valid() && started && values == [] && missing == {} && nextRequest == 0 && completed == 0 && result == None
      ensures valueIds == map[] && registered == {} && sets == [] && Recorded()
    {
      sets := [];
      values, valueIds, missing, registered := [], map[], {}, {};
      nextRequest, completed, result, started := 0, 0, None, true;
    }

    /** Add the values of a message and find out which of the values it names must be asked for.
        `registry` holds the IDs of values known to this machine. */
    method AddValues(message: Message, registry: set<Id>) returns (requested: seq<Id>)
      requires Valid()
      modifies this`sets, this`values, this`valueIds, this`missing, this`registered
      ensures Valid() && Took(old(Snapshot()), Snapshot(), message, requested) && registered <= old(registered) + registry
      ensures requested == FirstNamings(message, |message|, valueIds.Keys + old(missing) + old(registered) + registry)
      ensures sets == old(sets) + [message] && (old(Recorded()) ==> Recorded())
    {
      var base := |values|;
      assert (sets + [message])[..|sets|] == sets;
      sets := sets + [message];
      values := values + AllShifted(message, base);
      assert values[base..] == AllShifted(message, base);
      assert IdsLead(values, valueIds, missing, registered, base) && NamesSettled(values, valueIds, missing, registered, base);
      AddToValueMap(message, base);
      ghost var known := valueIds.Keys + missing + registered + registry;
      requested := LookForNames(message, registry, base);
      assert requested == FirstNamings(message, |message|, known);
      assert known == valueIds.Keys + old(missing) + old(registered) + registry;
    }

    function Snapshot(): Known
      reads this`values, this`valueIds, this`missing, this`registered
    {
      Known(values, valueIds.Keys, missing, registered)
    }

    method AddToValueMap(message: Message, base: nat)
      requires base + |message| == |values| && values[base..] == AllShifted(message, base)
      requires IdsLead(values, valueIds, missing, registered, base) && NamesSettled(values, valueIds, missing, registered, base)
      modifies this`valueIds, this`missing
      ensures IdsLead(values, valueIds, missing, registered, |values|) && NamesSettled(values, valueIds, missing, registered, base)
      ensures valueIds.Keys == old(valueIds).Keys + IdsDefined(message)
      ensures missing == old(missing) - IdsDefined(message)
    {
      for k := 0 to |message|
        invariant IdsLead(values, valueIds, missing, registered, base + k) && NamesSettled(values, valueIds, missing, registered, base)
        invariant valueIds.Keys == old(valueIds).Keys + IdsDefined(message[..k])
        invariant missing == old(missing) - IdsDefined(message[..k])
      {
        assert values[base..][k] == values[base + k] == Shifted(message[k], base);
        NoteId(base, base + k);
        OneMoreEntry(message, k, old(valueIds).Keys, old(missing));
      }
      assert message[..|message|] == message;
    }

    /** If the value at `n` was sent under an ID, the ID leads to it and is not missing any more. */
    method NoteId(ghost base: nat, n: nat)
      requires base <= n < |values| && IdsLead(values, valueIds, missing, registered, n)
      requires NamesSettled(values, valueIds, missing, registered, base)
      modifies this`valueIds, this`missing
      ensures IdsLead(values, valueIds, missing, registered, n + 1) && NamesSettled(values, valueIds, missing, registered, base)
      ensures valueIds.Keys == old(valueIds).Keys + EntryIds(values[n]) && missing == old(missing) - EntryIds(values[n])
    {
      if values[n].Full? && values[n].id.Some? {
        var id := values[n].id.value;
        valueIds := valueIds[id := n];
        missing := missing - {id};
      }
    }

    method LookForNames(message: Message, registry: set<Id>, ghost base: nat) returns (requested: seq<Id>)
      requires base + |message| == |values| && values[base..] == AllShifted(message, base)
      requires IdsLead(values, valueIds, missing, registered, |values|) && NamesSettled(values, valueIds, missing, registered, base)
      modifies this`missing, this`registered
      ensures Valid()
      ensures missing == old(missing) + Listed(requested)
      ensures Listed(requested) !! old(missing) && Listed(requested) !! valueIds.Keys
      ensures Listed(requested) <= IdsNamed(message) && OnceEach(requested)
      ensures old(registered) <= registered <= old(registered) + registry
      ensures requested == FirstNamings(message, |message|, valueIds.Keys + old(missing) + old(registered) + registry)
    {
      requested := [];
      for k := 0 to |message|
        invariant IdsLead(values, valueIds, missing, registered, |values|) && NamesSettled(values, valueIds, missing, registered, base + k)
        invariant missing == old(missing) + Listed(requested)
        invariant old(registered) <= registered <= old(registered) + registry
        invariant requested == FirstNamings(message, k, valueIds.Keys + old(missing) + old(registered) + registry)
      {
        assert values[base..][k] == values[base + k];
        if message[k].ByName? {
          var id := message[k].id0;
          if id !in valueIds && id !in missing && id !in registered {
            if id in registry {
              registered := registered + {id};
            } else {
              missing := missing + {id};
              requested := requested + [id];
            }
          }
        }
      }
      FirstNamingsAreNew(message, |message|, valueIds.Keys + old(missing) + old(registered) + registry);
      assert message[..|message|] == message;
    }

    /** Take in a push.  Reports what to do next: ask for more, wait, or start rebuilding. */
    method ReceivePush(push: Push, registry: set<Id>) returns (status: Status, requested: seq<Id>)
      requires Valid() && started
      modifies this
      ensures Valid() && completed == old(completed) + push.completed
      ensures push.result.Some? && old(result).Some? ==>
        status.Failed? && !started && Snapshot() == old(Snapshot()) && sets == old(sets) && result == old(result)
      ensures !(push.result.Some? && old(result).Some?) ==>
        && Took(old(Snapshot()), Snapshot(), push.values, requested)
        && requested == FirstNamings(push.values, |push.values|, valueIds.Keys + old(missing) + old(registered) + registry)
        && sets == old(sets) + [push.values] && (old(Recorded()) ==> Recorded())
        && result == (if push.result.Some? then Some(|old(values)| + push.result.value) else old(result))
        && status == Verdict(missing, requested, result, completed, old(nextRequest))
        && nextRequest == old(nextRequest) + (if status.Pull? then 1 else 0)
        && started == (status.Pull? || status.WaitForEarlierPull?)
    {
      completed := completed + push.completed;
      requested := [];
      if push.result.Some? {
        if result.Some? {
          started := false;
          return Failed("Sender set final_result_index on multiple pushes."), [];
        }
        result := Some(|values| + push.result.value);
      }
      requested := AddValues(push.values, registry);
      status := Reply(requested);
    }

    method Reply(requested: seq<Id>) returns (status: Status)
      modifies this`started, this`nextRequest
      ensures status == Verdict(missing, requested, result, completed, old(nextRequest))
      ensures nextRequest == old(nextRequest) + (if status.Pull? then 1 else 0)
      ensures started == if status.Pull? || status.WaitForEarlierPull? then old(started) else false
    {
      if missing == {} {
        started := false;
        return if result.None? then Failed("Sender never set final_result_index.") else Ready;
      }
      if requested == [] {
        if completed < nextRequest { return WaitForEarlierPull; }
        started := false;
        return Failed("Sender claims to have satisfied all pull requests.");
      }
      nextRequest := nextRequest + 1;
      return Pull(requested, nextRequest - 1);
    }
  }

  function Verdict(missing: set<Id>, requested: seq<Id>, result: Option<nat>, completed: nat, nextRequest: nat): Status {
    if missing == {} then if result.None? then Failed("Sender never set final_result_index.") else Ready
    else if requested != [] then Pull(requested, nextRequest)
    else if completed < nextRequest then WaitForEarlierPull
    else Failed("Sender claims to have satisfied all pull requests.")
  }

  // ---------------------------------------------------------------------------
  // The two together.

  ghost function AllIds(heap: Heap): set<Id> {
    set x | 0 <= x < |heap| && HasId(heap[x].kind) :: ContentOf(heap, x)
  }

  lemma ShiftedStands(heap: Heap, before: seq<Entry>, ofBefore: seq<nat>, message: Message, of: seq<nat>)
    requires Understood(heap, before, ofBefore) && Understood(heap, message, of)
    ensures Understood(heap, before + AllShifted(message, |before|), ofBefore + of)
  {
    var after, base := before + AllShifted(message, |before|), |before|;
    forall k | 0 <= k < |after| ensures Stands(heap, after, ofBefore + of, k) {
      if k < base {
        StandsStill(heap, before, ofBefore, after, ofBefore + of, k);
      } else {
        assert after[k] == Shifted(message[k - base], base) && Stands(heap, message, of, k - base);
      }
    }
  }

  lemma NamesOf(message: Message, before: seq<Entry>)
    ensures IdsNamed(before + AllShifted(message, |before|)) == IdsNamed(before) + IdsNamed(message)
  {
    var base, after := |before|, before + AllShifted(message, |before|);
    forall k | 0 <= k < |message| ensures after[base + k] == Shifted(message[k], base) {}
    forall k | 0 <= k < |before| ensures after[k] == before[k] {}
    forall id | id in IdsNamed(message) ensures id in IdsNamed(after) {
      var k :| 0 <= k < |message| && message[k].ByName? && message[k].id0 == id;
      assert after[base + k].ByName?;
    }
  }

  /** Where the exchange stands: the values received stand for the heap objects `of`; `asked` are
      all IDs asked for so far, and those in `requested` are still missing. */
  ghost predicate Underway(heap: Heap, remembered: map<Id, nat>, known: Known, of: seq<nat>, asked: seq<Id>, requested: seq<Id>) {
    && Understood(heap, known.values, of)
    && (forall id | id in IdsNamed(known.values) :: id in remembered)
    && OnceEach(asked) && Listed(asked) <= AllIds(heap)
    && known.missing == Listed(requested) && Listed(requested) <= Listed(asked)
    && Listed(requested) <= IdsNamed(known.values)
    && Listed(asked) <= known.ids + known.missing
  }

  lemma ListedMore(a: seq<Id>, b: seq<Id>)
    ensures Listed(a + b) == Listed(a) + Listed(b)
    ensures OnceEach(a) && OnceEach(b) && Listed(a) !! Listed(b) ==> OnceEach(a + b)
  {
    var both := a + b;
    assert forall i | 0 <= i < |a| :: both[i] == a[i];
    assert forall i | 0 <= i < |b| :: both[|a| + i] == b[i];
    if OnceEach(a) && OnceEach(b) && Listed(a) !! Listed(b) {
      forall i, j | 0 <= i < j < |both| ensures both[i] != both[j] {
        assert both[i] in if i < |a| then Listed(a) else Listed(b);
        assert both[j] in if j < |a| then Listed(a) else Listed(b);
      }
    }
  }

  /** A message that sends everything requested leaves the exchange under way; what is asked for
      next has never been asked for before. */
  lemma NextPush(heap: Heap, before: Known, of: seq<nat>, asked: seq<Id>, requested: seq<Id>, rememberedBefore: map<Id, nat>,
                 message: Message, messageOf: seq<nat>, after: Known, requested': seq<Id>, remembered: map<Id, nat>)
    requires Underway(heap, rememberedBefore, before, of, asked, requested)
    requires Understood(heap, message, messageOf) && Took(before, after, message, requested')
    requires Listed(requested) <= IdsDefined(message)
    requires forall id | id in rememberedBefore :: id in remembered
    requires forall id | id in IdsNamed(message) :: id in remembered
    requires forall id | id in remembered :: id in AllIds(heap)
    ensures Underway(heap, remembered, after, of + messageOf, asked + requested', requested')
    ensures after.missing == {} <==> requested' == []
  {
    ShiftedStands(heap, before.values, of, message, messageOf);
    NamesOf(message, before.values);
    ListedMore(asked, requested');
    if requested' != [] { assert requested'[0] in Listed(requested'); }
  }

  lemma AskedCount(heap: Heap, asked: seq<Id>)
    requires OnceEach(asked) && Listed(asked) <= AllIds(heap)
    ensures |asked| <= |AllIds(heap)|
  {
    OnceEachCount(asked);
    SubsetCount(Listed(asked), AllIds(heap));
  }

  lemma RememberedHaveIds(pusher: ValuePusher)
    requires pusher.Valid()
    ensures forall id | id in pusher.remembered :: id in AllIds(pusher.heap)
    ensures forall id | id in IdsNamed(pusher.output) :: id in pusher.remembered
  {
  }

  /** Entries are what their kind of value is made of, and refer to entries of the same message. */
  ghost predicate SelfContained(message: Message) {
    forall k | 0 <= k < |message| && message[k].Full? ::
      && Fits(message[k].shape, |message[k].references|)
      && forall i | 0 <= i < |message[k].references| :: message[k].references[i] < |message|
  }

  ghost predicate AllSelfContained(sets: seq<Message>) { forall m | 0 <= m < |sets| :: SelfContained(sets[m]) }

  /** When nothing is missing but what has just been asked for, the receiver asks for it or is ready. */
  lemma AsksOrIsReady(missing: set<Id>, requested: seq<Id>, result: Option<nat>, completed: nat, nextRequest: nat)
    requires (missing == {} <==> requested == []) && result.Some?
    ensures var status := Verdict(missing, requested, result, completed, nextRequest);
      (status.Pull? || status.Ready?) && (status.Pull? <==> requested != [])
  {
  }

  lemma UnderstoodIsSelfContained(heap: Heap, message: Message, of: seq<nat>)
    requires Understood(heap, message, of)
    ensures SelfContained(message)
  {
    forall k | 0 <= k < |message| && message[k].Full?
      ensures Fits(message[k].shape, |message[k].references|)
      ensures forall i | 0 <= i < |message[k].references| :: message[k].references[i] < |message|
    {
      assert Stands(heap, message, of, k);
    }
  }

  /** An exchange after `pushes` pushes, the last of which was answered with `status`. */
  ghost predicate Going(pusher: ValuePusher, puller: ValuePuller, root: nat, result: nat, pushes: nat,
                        of: seq<nat>, asked: seq<Id>, requested: seq<Id>, status: Status)
    reads pusher, puller
  {
    && pusher.Valid() && puller.Valid()
    && Underway(pusher.heap, pusher.remembered, puller.Snapshot(), of, asked, requested)
    && puller.result == Some(result) && result < |of| && of[result] == root
    && (puller.missing == {} <==> requested == [])
    && (status.Pull? || status.Ready?) && (status.Pull? <==> requested != [])
    && puller.started == status.Pull?
    && 1 <= pushes <= |asked| + (if status.Pull? then 0 else 1)
    && puller.Recorded() && AllSelfContained(puller.sets) && |puller.sets| == pushes
    && puller.completed == pushes - 1 && puller.nextRequest == pushes - (if status.Pull? then 0 else 1)
  }

  /** The receiver takes in a push that answers all that it has asked for. */
  method TakeIn(puller: ValuePuller, push: Push, registry: set<Id>, ghost heap: Heap, ghost of: seq<nat>, ghost asked: seq<Id>,
                ghost requested: seq<Id>, ghost rememberedBefore: map<Id, nat>, ghost messageOf: seq<nat>, ghost remembered: map<Id, nat>)
    returns (status: Status, requested': seq<Id>)
    requires puller.Valid() && puller.started && puller.Recorded() && AllSelfContained(puller.sets)
    requires Underway(heap, rememberedBefore, puller.Snapshot(), of, asked, requested)
    requires Understood(heap, push.values, messageOf) && Listed(requested) <= IdsDefined(push.values)
    requires forall id | id in rememberedBefore :: id in remembered
    requires forall id | id in IdsNamed(push.values) :: id in remembered
    requires forall id | id in remembered :: id in AllIds(heap)
    requires push.result.Some? == puller.result.None?
    modifies puller
    ensures puller.Valid() && puller.Recorded() && AllSelfContained(puller.sets)
    ensures Underway(heap, remembered, puller.Snapshot(), of + messageOf, asked + requested', requested')
    ensures puller.result == if push.result.Some? then Some(old(|puller.values|) + push.result.value) else old(puller.result)
    ensures puller.missing == {} <==> requested' == []
    ensures (status.Pull? || status.Ready?) && (status.Pull? <==> requested' != []) && puller.started == status.Pull?
    ensures puller.sets == old(puller.sets) + [push.values] && puller.completed == old(puller.completed) + push.completed
    ensures puller.nextRequest == old(puller.nextRequest) + if status.Pull? then 1 else 0
  {
    ghost var before, asking := puller.Snapshot(), puller.nextRequest;
    UnderstoodIsSelfContained(heap, push.values, messageOf);
    status, requested' := puller.ReceivePush(push, registry);
    NextPush(heap, before, of, asked, requested, rememberedBefore, push.values, messageOf, puller.Snapshot(), requested', remembered);
    AsksOrIsReady(puller.missing, requested', puller.result, puller.completed, asking);
  }

  method FirstPush(heap: Heap, root: nat, receiverHas: set<Id>, registry: set<Id>)
    returns (pusher: ValuePusher, puller: ValuePuller, result: nat, status: Status, requested: seq<Id>)
    requires root < |heap|
    ensures fresh(pusher) && fresh(puller) && pusher.heap == heap
    ensures Going(pusher, puller, root, result, 1, pusher.of, requested, requested, status)
  {
    pusher := new ValuePusher(heap, receiverHas);
    puller := new ValuePuller();
    var message;
    message, result := pusher.SendInitialValue(root);
    RememberedHaveIds(pusher);
    status, requested := TakeInFirst(puller, message, result, registry, heap, pusher.of, pusher.remembered);
  }

  method TakeInFirst(puller: ValuePuller, message: Message, result: nat, registry: set<Id>, ghost heap: Heap,
                     ghost messageOf: seq<nat>, ghost remembered: map<Id, nat>) returns (status: Status, requested: seq<Id>)
    requires puller.Valid() && puller.started && puller.Recorded() && puller.sets == [] && puller.result == None
    requires puller.completed == 0 && puller.nextRequest == 0
    requires puller.Snapshot() == NOTHING_KNOWN && Understood(heap, message, messageOf)
    requires forall id | id in IdsNamed(message) :: id in remembered
    requires forall id | id in remembered :: id in AllIds(heap)
    modifies puller
    ensures puller.Valid() && puller.Recorded() && AllSelfContained(puller.sets)
    ensures Underway(heap, remembered, puller.Snapshot(), messageOf, requested, requested)
    ensures puller.result == Some(result)
    ensures puller.missing == {} <==> requested == []
    ensures (status.Pull? || status.Ready?) && (status.Pull? <==> requested != []) && puller.started == status.Pull?
    ensures |puller.sets| == 1 && puller.completed == 0 && puller.nextRequest == if status.Pull? then 1 else 0
  {
    NothingYet(heap);
    status, requested := TakeIn(puller, Push(message, Some(result), 0), registry, heap, [], [], [], map[], messageOf, remembered);
    assert [] + messageOf == messageOf && [] + requested == requested;
  }

  const NOTHING_KNOWN := Known([], {}, {}, {})

  lemma NothingYet(heap: Heap)
    ensures Underway(heap, map[], NOTHING_KNOWN, [], [], [])
  {
  }

  /** Answer one pull and take in the answer. */
  method Round(pusher: ValuePusher, puller: ValuePuller, ghost root: nat, ghost result: nat, ghost pushes: nat,
               ghost of: seq<nat>, ghost asked: seq<Id>, requested: seq<Id>, status: Status, registry: set<Id>)
    returns (status': Status, requested': seq<Id>)
    requires Going(pusher, puller, root, result, pushes, of, asked, requested, status) && status.Pull?
    modifies pusher, puller
    ensures Going(pusher, puller, root, result, pushes + 1, of + pusher.of, asked + requested', requested', status')
  {
    ghost var rememberedBefore := pusher.remembered;
    forall id | id in requested ensures id in pusher.remembered { assert id in Listed(requested); }
    var reply := pusher.RespondToPull(requested);
    RememberedHaveIds(pusher);
    status', requested' := TakeIn(puller, Push(reply.value, None, 1), registry, pusher.heap, of, asked, requested,
                                  rememberedBefore, pusher.of, pusher.remembered);
  }

  /** The whole exchange for the value at `root`.  It never fails and never has to wait, asks for
      no ID twice, takes at most one push more than there are IDs, and leaves the receiver with
      nothing missing and with values that stand for the sender's heap objects. */
  method Exchange(heap: Heap, root: nat, receiverHas: set<Id>, registries: nat -> set<Id>)
    returns (puller: ValuePuller, result: nat, pushes: nat, ghost of: seq<nat>, ghost asked: seq<Id>)
    requires root < |heap|
    ensures puller.Valid() && puller.missing == {} && puller.result == Some(result)
    ensures Understood(heap, puller.values, of) && result < |of| && of[result] == root
    ensures puller.Recorded() && AllSelfContained(puller.sets)
    ensures OnceEach(asked) && Listed(asked) <= AllIds(heap)
    ensures |puller.sets| == pushes <= |asked| + 1 <= |AllIds(heap)| + 1
  {
    var pusher, status, requested;
    pusher, puller, result, status, requested := FirstPush(heap, root, receiverHas, registries(0));
    pushes, of, asked := 1, pusher.of, requested;
    AskedCount(heap, asked);
    while status.Pull?
      invariant fresh(pusher) && fresh(puller) && pusher.heap == heap
      invariant Going(pusher, puller, root, result, pushes, of, asked, requested, status)
      invariant |asked| <= |AllIds(heap)|
      decreases |AllIds(heap)| - |asked|, status.Pull?
    {
      status, requested := Round(pusher, puller, root, result, pushes, of, asked, requested, status, registries(pushes));
      pushes, of, asked := pushes + 1, of + pusher.of, asked + requested;
      AskedCount(heap, asked);
    }
  }

  // ---------------------------------------------------------------------------
  // What the received values rebuild to.

  /** `contents` rebuilds every value from its references: in full from the values referred to, by
      ID from the value sent under the ID or from the registry. */
  ghost predicate Rebuilds(values: seq<Entry>, ids: map<Id, nat>, contents: seq<Content>) {
    && |contents| == |values|
    && forall k | 0 <= k < |values| :: RebuiltAt(values, ids, contents, k)
  }

  ghost predicate RebuiltAt(values: seq<Entry>, ids: map<Id, nat>, contents: seq<Content>, k: nat)
    requires k < |values| == |contents|
  {
    match values[k]
    case Full(shape, _, references) =>
      && contents[k].shape == shape && |contents[k].parts| == |references|
      && forall i | 0 <= i < |references| :: references[i] < |contents| && contents[k].parts[i] == contents[references[i]]
    case ByName(id) =>
      if id in ids then ids[id] < |contents| && contents[k] == contents[ids[id]] else contents[k] == id
  }

  /** There is only one way to rebuild the values: each is the content of the heap object it
      stands for.  In particular the result is the value that was sent. */
  lemma {:induction false} RebuiltAsSent(heap: Heap, values: seq<Entry>, of: seq<nat>, ids: map<Id, nat>, contents: seq<Content>, k: nat)
    requires Understood(heap, values, of) && Rebuilds(values, ids, contents) && k < |values|
    requires forall id | id in ids :: ids[id] < |values| && values[ids[id]].Full? && values[ids[id]].id == Some(id)
    ensures contents[k] == ContentOf(heap, of[k])
    decreases ContentOf(heap, of[k]), values[k].ByName?
  {
    assert Stands(heap, values, of, k) && RebuiltAt(values, ids, contents, k);
    match values[k]
    case Full(shape, _, references) =>
      var whole := ContentOf(heap, of[k]);
      forall i | 0 <= i < |references| ensures contents[k].parts[i] == whole.parts[i] {
        assert whole.parts[i] == ContentOf(heap, heap[of[k]].children[i]) == ContentOf(heap, of[references[i]]);
        RebuiltAsSent(heap, values, of, ids, contents, references[i]);
      }
    case ByName(id) =>
      if id in ids {
        assert Stands(heap, values, of, ids[id]);
        RebuiltAsSent(heap, values, of, ids, contents, ids[id]);
      }
  }

  /** The contents that were sent do rebuild the values. */
  lemma SentContentsRebuild(heap: Heap, values: seq<Entry>, of: seq<nat>, ids: map<Id, nat>)
    requires Understood(heap, values, of)
    requires forall id | id in ids :: ids[id] < |values| && values[ids[id]].Full? && values[ids[id]].id == Some(id)
    ensures Rebuilds(values, ids, seq(|values|, k requires 0 <= k < |values| => ContentOf(heap, of[k])))
  {
    var contents := seq(|values|, k requires 0 <= k < |values| => ContentOf(heap, of[k]));
    forall k | 0 <= k < |values| ensures RebuiltAt(values, ids, contents, k) {
      assert Stands(heap, values, of, k);
      if values[k].ByName? && values[k].id0 in ids { assert Stands(heap, values, of, ids[values[k].id0]); }
    }
  }

  /** After an exchange the receiver can rebuild every value, and the result is what was sent. */
  lemma ExchangeYieldsValueSent(heap: Heap, puller: ValuePuller, of: seq<nat>, root: nat, result: nat, contents: seq<Content>)
    requires puller.Valid() && puller.missing == {} && Understood(heap, puller.values, of)
    requires result < |of| && of[result] == root && Rebuilds(puller.values, puller.valueIds, contents)
    ensures root < |heap| && contents[result] == ContentOf(heap, root)
    ensures forall k | 0 <= k < |puller.values| && puller.values[k].ByName? ::
      puller.values[k].id0 in puller.valueIds || puller.values[k].id0 in puller.registered
  {
    RebuiltAsSent(heap, puller.values, of, puller.valueIds, contents, result);
  }
}
