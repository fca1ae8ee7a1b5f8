/** Indexes of values inside a message.  While a message is being built, an index packs the type
    of a value with its place among the values of that type; afterwards, indexes count through
    all types.  The receiver lays values out in the same way. */
module Renumbering {

  const TYPES := 10
  const TYPE_REMOTE := 8
  const TYPE_VALUE_ID := 9

  /** How many values a message has of each type. */
  type Sizes = s: seq<nat> | |s| == TYPES witness [0, 0, 0, 0, 0, 0, 0, 0, 0, 0]

  /** Indexes are 32-bit integers, so there is room for this many values of a type. */
  const MAX_PER_TYPE := 0x800_0000

  function MakeProvisionalIndex(t: nat, index: nat): (p: nat)
    requires t < TYPES && index < MAX_PER_TYPE
    ensures p < 0x8000_0000
    ensures TypeOf(p) == t && OffsetOf(p) == index
  {
    index * 16 + t
  }

  function TypeOf(provisional: nat): nat { provisional % 16 }

  function OffsetOf(provisional: nat): nat { provisional / 16 }

  function Sum(sizes: seq<nat>): nat {
    if sizes == [] then 0 else Sum(sizes[..|sizes| - 1]) + sizes[|sizes| - 1]
  }

  /** The index names a value that the message has. */
  predicate Names(sizes: Sizes, provisional: nat) {
    TypeOf(provisional) < TYPES && OffsetOf(provisional) < sizes[TypeOf(provisional)]
  }

  function FinalIndex(sizes: Sizes, provisional: nat): nat
    requires Names(sizes, provisional)
  {
    Sum(sizes[..TypeOf(provisional)]) + OffsetOf(provisional)
  }

  lemma {:induction false} SumSplit(sizes: seq<nat>, t: nat, u: nat)
    requires t <= u <= |sizes|
    ensures Sum(sizes[..t]) <= Sum(sizes[..u])
    ensures t < u ==> Sum(sizes[..t]) + sizes[t] <= Sum(sizes[..u])
  {
    if t < u {
      SumSplit(sizes, t, u - 1);
      assert sizes[..u][..u - 1] == sizes[..u - 1];
    }
  }

  /** The type whose values include the one at `final`. */
  lemma {:induction false} FindType(sizes: seq<nat>, final: nat, n: nat) returns (t: nat)
    requires n <= |sizes| && final < Sum(sizes[..n])
    ensures t < n && Sum(sizes[..t]) <= final < Sum(sizes[..t]) + sizes[t]
  {
    assert sizes[..n][..n - 1] == sizes[..n - 1];
    if final < Sum(sizes[..n - 1]) {
      t := FindType(sizes, final, n - 1);
    } else {
      t := n - 1;
    }
  }

  ghost predicate NamedBySome(sizes: Sizes, final: nat) {
    exists p :: Names(sizes, p) && FinalIndex(sizes, p) == final
  }

  /** Final indexes stay below the number of values, differ for different values, and leave no
      gaps. */
  lemma RenumberingIsBijective(sizes: Sizes)
    requires forall t | 0 <= t < TYPES :: sizes[t] <= MAX_PER_TYPE
    ensures forall p | Names(sizes, p) :: FinalIndex(sizes, p) < Sum(sizes)
    ensures forall p, q | Names(sizes, p) && Names(sizes, q) && FinalIndex(sizes, p) == FinalIndex(sizes, q) :: p == q
    ensures forall final: nat | final < Sum(sizes) :: NamedBySome(sizes, final)
  {
    assert sizes[..TYPES] == sizes;
    forall p | Names(sizes, p) ensures FinalIndex(sizes, p) < Sum(sizes) {
      SumSplit(sizes, TypeOf(p), TYPES);
    }
    forall p, q | Names(sizes, p) && Names(sizes, q) && FinalIndex(sizes, p) == FinalIndex(sizes, q) ensures p == q {
      var t, u := TypeOf(p), TypeOf(q);
      if t < u { SumSplit(sizes, t, u); }
      if u < t { SumSplit(sizes, u, t); }
    }
    forall final: nat | final < Sum(sizes) ensures NamedBySome(sizes, final) {
      var t := FindType(sizes, final, TYPES);
      var p := MakeProvisionalIndex(t, final - Sum(sizes[..t]));
      assert Names(sizes, p) && FinalIndex(sizes, p) == final;
    }
  }

  // ---------------------------------------------------------------------------
  // The sender.

  class MarshallingSession {
    var sizes: Sizes
    var references: seq<nat>     // all references between the values of the message
    var offsets: seq<nat>
    var finalized: bool

    constructor ()
      ensures sizes == seq(TYPES, _ => 0) && references == [] && !finalized
    {
      sizes, references, offsets, finalized := seq(TYPES, _ => 0), [], [], false;
    }

    /** Add a value of type `t`. */
    method Add(t: nat) returns (p: nat)
      requires !finalized && t < TYPES && sizes[t] < MAX_PER_TYPE
      modifies this`sizes
      ensures sizes == old(sizes)[t := old(sizes)[t] + 1]
      ensures Names(sizes, p) && !Names(old(sizes), p)
      ensures forall q | Names(old(sizes), q) :: Names(sizes, q)
    {
      p := MakeProvisionalIndex(t, sizes[t]);
      sizes := sizes[t := sizes[t] + 1];
    }

    /** Add a value that the receiver owns.  The index is made from the number of remote values,
        so it names the new value exactly when there are as many of those as there are values sent
        by ID. */
    method AddReceiverOwnedValue() returns (p: nat)
      requires !finalized && sizes[TYPE_VALUE_ID] < MAX_PER_TYPE && sizes[TYPE_REMOTE] < MAX_PER_TYPE
      modifies this`sizes
      ensures sizes == old(sizes)[TYPE_VALUE_ID := old(sizes)[TYPE_VALUE_ID] + 1]
      ensures Names(sizes, p) && !Names(old(sizes), p) <==> old(sizes)[TYPE_REMOTE] == old(sizes)[TYPE_VALUE_ID]
    {
      p := MakeProvisionalIndex(TYPE_VALUE_ID, sizes[TYPE_REMOTE]);
      sizes := sizes[TYPE_VALUE_ID := sizes[TYPE_VALUE_ID] + 1];
    }

    /** Work out where the values of each type start, and rewrite all references. */
    method Finalize()
      requires !finalized && forall i | 0 <= i < |references| :: Names(sizes, references[i])
      modifies this`references, this`offsets, this`finalized
      ensures finalized && |references| == |old(references)|
      ensures |offsets| == TYPES && forall t | 0 <= t < TYPES :: offsets[t] == Sum(sizes[..t])
      ensures forall i | 0 <= i < |references| :: references[i] == FinalIndex(sizes, old(references)[i])
    {
      var pos := 0;
      offsets := [];
      for t := 0 to TYPES
        invariant references == old(references) && !finalized
        invariant |offsets| == t && pos == Sum(sizes[..t])
        invariant forall u | 0 <= u < t :: offsets[u] == Sum(sizes[..u])
      {
        offsets := offsets + [pos];
        pos := pos + sizes[t];
        assert sizes[..t + 1][..t] == sizes[..t];
      }
      finalized := true;
      for i := 0 to |references|
        invariant |references| == |old(references)| && finalized
        invariant |offsets| == TYPES && forall t | 0 <= t < TYPES :: offsets[t] == Sum(sizes[..t])
        invariant forall j | i <= j < |references| :: references[j] == old(references)[j]
        invariant forall j | 0 <= j < i :: references[j] == FinalIndex(sizes, old(references)[j])
      {
        var final := ToFinalIndex(references[i]);
        references := references[i := final];
      }
    }

    method ToFinalIndex(provisional: nat) returns (final: nat)
      requires finalized && Names(sizes, provisional)
      requires |offsets| == TYPES && forall t | 0 <= t < TYPES :: offsets[t] == Sum(sizes[..t])
      ensures final == FinalIndex(sizes, provisional)
    {
      final := offsets[TypeOf(provisional)] + OffsetOf(provisional);
    }
  }

  // ---------------------------------------------------------------------------
  // The receiver.

  datatype Location = Location(set0: nat, t: nat, index: nat)

  /** The places of the values of one type, of one message, and of all messages. */
  function OfType(set0: nat, t: nat, size: nat): seq<Location> {
    seq(size, i requires 0 <= i < size => Location(set0, t, i))
  }

  function OfTypes(set0: nat, sizes: seq<nat>): (r: seq<Location>)
    ensures |r| == Sum(sizes)
  {
    if sizes == [] then [] else OfTypes(set0, sizes[..|sizes| - 1]) + OfType(set0, |sizes| - 1, sizes[|sizes| - 1])
  }

  function OfSets(sets: seq<Sizes>): seq<Location> {
    if sets == [] then [] else OfSets(sets[..|sets| - 1]) + OfTypes(|sets| - 1, sets[|sets| - 1])
  }

  method SetupValueLocations(sets: seq<Sizes>) returns (locations: seq<Location>)
    ensures locations == OfSets(sets)
  {
    locations := [];
    for i := 0 to |sets|
      invariant locations == OfSets(sets[..i])
    {
      ghost var before := locations;
      for t := 0 to TYPES
        invariant locations == before + OfTypes(i, sets[i][..t])
      {
        ghost var beforeType := locations;
        for j := 0 to sets[i][t]
          invariant locations == beforeType + OfType(i, t, j)
        {
          locations := locations + [Location(i, t, j)];
        }
        assert sets[i][..t + 1][..t] == sets[i][..t];
      }
      assert sets[i][..TYPES] == sets[i] && sets[..i + 1][..i] == sets[..i];
    }
    assert sets[..|sets|] == sets;
  }

  lemma {:induction false} TypePlace(set0: nat, sizes: seq<nat>, t: nat, i: nat)
    requires t < |sizes| && i < sizes[t]
    ensures Sum(sizes[..t]) + i < Sum(sizes) && OfTypes(set0, sizes)[Sum(sizes[..t]) + i] == Location(set0, t, i)
  {
    var last := |sizes| - 1;
    if t < last {
      TypePlace(set0, sizes[..last], t, i);
      assert sizes[..last][..t] == sizes[..t];
    }
  }

  /** The receiver finds, at the place an index leads to, exactly the value the sender meant. */
  lemma {:induction false} ReceiverFindsValue(sets: seq<Sizes>, n: nat, provisional: nat)
    requires n < |sets| && Names(sets[n], provisional)
    ensures |OfSets(sets[..n])| + FinalIndex(sets[n], provisional) < |OfSets(sets)|
    ensures OfSets(sets)[|OfSets(sets[..n])| + FinalIndex(sets[n], provisional)]
         == Location(n, TypeOf(provisional), OffsetOf(provisional))
  {
    var last := |sets| - 1;
    if n < last {
      ReceiverFindsValue(sets[..last], n, provisional);
      assert sets[..last][..n] == sets[..n];
    } else {
      TypePlace(n, sets[n], TypeOf(provisional), OffsetOf(provisional));
    }
  }
}
