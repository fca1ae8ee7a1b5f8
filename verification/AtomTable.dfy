/** Tables that map atoms to their positions in an array, by double hashing. */
module AtomTables {
  import opened Counting
  import opened Values

  ghost predicate Prime(p: nat) { p > 1 && forall d | 1 < d < p :: p % d != 0 }

  // ---------------------------------------------------------------------------
  // A prime that divides a product divides one of the factors.

  ghost predicate Divides(p: nat, x: int) { exists q: int :: x == p * q }

  lemma Distribute(a: int, b: int, c: int)
    ensures a * (b + c) == a * b + a * c && a * (b - c) == a * b - a * c
  {
  }

  lemma DividesDifference(p: nat, x: int, y: int)
    requires Divides(p, x) && Divides(p, y)
    ensures Divides(p, x - y)
  {
    var q :| x == p * q;
    var r :| y == p * r;
    Distribute(p, q, r);
    assert x - y == p * (q - r);
  }

  lemma Associate(a: int, b: int, c: int)
    ensures (a * b) * c == a * (b * c)
  {
  }

  lemma DividesMultiple(p: nat, x: int, k: int)
    requires Divides(p, x)
    ensures Divides(p, x * k)
  {
    var q :| x == p * q;
    Associate(p, q, k);
    assert x * k == p * (q * k);
  }

  lemma DividesItself(p: nat, k: int)
    ensures Divides(p, p * k) && Divides(p, k * p)
  {
    assert k * p == p * k;
  }

  /** The least positive number whose product with `a` is divisible by `p`. */
  lemma LeastFactor(p: nat, a: nat) returns (m: nat)
    requires p > 0
    ensures 1 <= m <= p && Divides(p, a * m) && forall n: nat | 1 <= n < m :: !Divides(p, a * n)
  {
    m := 1;
    while m < p && !Divides(p, a * m)
      invariant 1 <= m <= p && forall n: nat | 1 <= n < m :: !Divides(p, a * n)
    {
      m := m + 1;
    }
    DividesItself(p, a);
  }

  lemma LeastFactorDivides(p: nat, a: nat, m: nat, k: nat)
    requires p > 0 && 1 <= m && Divides(p, a * m) && (forall n: nat | 1 <= n < m :: !Divides(p, a * n))
    requires Divides(p, a * k)
    ensures k % m == 0
  {
    var q, r := k / m, k % m;
    DividesMultiple(p, a * m, q);
    RemainderProduct(a, m, k);
    DividesDifference(p, a * k, (a * m) * q);
    assert Divides(p, a * r);
  }

  lemma RemainderProduct(a: int, m: int, k: int)
    requires m > 0
    ensures a * (k % m) == a * k - (a * m) * (k / m)
  {
    Distribute(a, k, m * (k / m));
    Associate(a, m, k / m);
    assert k % m == k - m * (k / m);
  }

  lemma PrimeDividesNeither(p: nat, a: nat, k: nat)
    requires Prime(p) && 0 < a < p && 0 < k < p
    ensures !Divides(p, a * k)
  {
    if Divides(p, a * k) {
      var m := LeastFactor(p, a);
      DividesItself(p, a);
      SmallNotDivisible(p, k);
      SmallNotDivisible(p, a);
      assert a * 1 == a;
      LeastFactorDivides(p, a, m, p);
      LeastFactorDivides(p, a, m, k);
      assert false;
    }
  }

  lemma SmallNotDivisible(p: nat, k: nat)
    requires 0 < k < p
    ensures k % p == k && !Divides(p, k)
  {
    forall q | k == p * q ensures false {
      Sign(p, q, k);
    }
  }

  lemma Sign(p: int, q: int, k: int)
    requires 0 < k < p
    ensures k != p * q
  {
    if q >= 1 { AtLeast(p, q); } else { AtMost(p, q); }
  }

  lemma AtLeast(p: int, q: int)
    requires p > 0 && q >= 1
    ensures p * q >= p
  {
  }

  lemma AtMost(p: int, q: int)
    requires p > 0 && q <= 0
    ensures p * q <= 0
  {
  }

  // ---------------------------------------------------------------------------
  // The probe sequence.

  function FirstBucket(hash: nat, size: nat): nat
    requires size > 1
  {
    hash % size
  }

  function Interval(hash: nat, size: nat): (i: nat)
    requires size > 1
    ensures 0 < i < size
  {
    hash % (size - 1) + 1
  }

  /** The `k`-th bucket to be looked at. */
  function Probe(hash: nat, size: nat, k: nat): (b: nat)
    requires size > 1
    ensures b < size
  {
    if k == 0 then FirstBucket(hash, size) else (Probe(hash, size, k - 1) + Interval(hash, size)) % size
  }

  /** Advancing adds a multiple of the interval, up to a multiple of the size. */
  lemma {:induction false} ProbeForm(hash: nat, size: nat, k: nat)
    requires size > 1
    ensures Divides(size, FirstBucket(hash, size) + Interval(hash, size) * k - Probe(hash, size, k))
  {
    if k == 0 {
      DividesItself(size, 0);
      assert Interval(hash, size) * 0 == 0;
    } else {
      ProbeForm(hash, size, k - 1);
      NextForm(size, FirstBucket(hash, size), Interval(hash, size), k, Probe(hash, size, k - 1));
    }
  }

  lemma NextForm(size: nat, first: int, interval: int, k: int, before: int)
    requires size > 0 && Divides(size, first + interval * (k - 1) - before)
    ensures Divides(size, first + interval * k - (before + interval) % size)
  {
    var sum := before + interval;
    DividesItself(size, sum / size);
    DividesSum(size, first + interval * (k - 1) - before, size * (sum / size));
    Distribute(interval, k, 1);
    Remainder(sum, size);
  }

  lemma Remainder(x: int, n: nat)
    requires n > 0
    ensures x % n == x - n * (x / n)
  {
  }

  lemma DividesSum(p: nat, x: int, y: int)
    requires Divides(p, x) && Divides(p, y)
    ensures Divides(p, x + y)
  {
    var q :| x == p * q;
    var r :| y == p * r;
    Distribute(p, q, r);
    assert x + y == p * (q + r);
  }

  lemma ProbesDiffer(hash: nat, size: nat, j: nat, k: nat)
    requires Prime(size) && j < k < size
    ensures Probe(hash, size, j) != Probe(hash, size, k)
  {
    if Probe(hash, size, j) == Probe(hash, size, k) {
      var i := Interval(hash, size);
      ProbeForm(hash, size, j);
      ProbeForm(hash, size, k);
      DividesDifference(size, FirstBucket(hash, size) + i * k - Probe(hash, size, k),
                        FirstBucket(hash, size) + i * j - Probe(hash, size, j));
      Distribute(i, k, j);
      PrimeDividesNeither(size, i, k - j);
    }
  }

  /** With a prime number of buckets, the first probes visit every bucket exactly once. */
  lemma ProbesReachAll(hash: nat, size: nat, b: nat) returns (k: nat)
    requires Prime(size) && b < size
    ensures k < size && Probe(hash, size, k) == b
    ensures forall i: nat | i < size && Probe(hash, size, i) == b :: i == k
  {
    var probes := seq(size, i requires 0 <= i < size => Probe(hash, size, i));
    forall i, j | 0 <= i < j < size ensures probes[i] != probes[j] { ProbesDiffer(hash, size, i, j); }
    AllListed(probes, b);
    k :| k < size && probes[k] == b;
    forall i: nat | i < size && Probe(hash, size, i) == b ensures i == k { assert probes[i] == b; }
  }

  const MAX_INT := 0x7FFF_FFFF

  /** Advancing computes a sum of at most 32 bits. */
  ghost predicate Advances(hash: nat, size: nat, k: nat)
    requires size > 1
  {
    Probe(hash, size, k) + Interval(hash, size) <= MAX_INT
  }

  /** Atoms are hashed by their addresses, which are multiples of eight.  Advancing stays within 32
      bits, whatever the address, exactly for tables of at most 2^30 + 1 buckets. */
  lemma AdvancingFits(size: nat)
    requires size > 1
    ensures (forall hash: nat, k: nat | hash % 8 == 0 :: Advances(hash, size, k)) <==> size <= 0x4000_0001
  {
    if size > 0x4000_0001 {
      assert !Advances(0x4000_0000, size, 0);
    } else {
      forall hash: nat, k: nat | hash % 8 == 0 ensures Advances(hash, size, k) {
        if size == 0x4000_0001 { EighthRemainder(hash, 0x4000_0000); }
      }
    }
  }

  lemma EighthRemainder(hash: nat, n: nat)
    requires hash % 8 == 0 && n == 0x4000_0000
    ensures hash % n <= n - 8
  {
  }

  lemma HashFits(hash: nat, size: nat, k: nat)
    requires 1 < size <= 0x4000_0000
    ensures Advances(hash, size, k)
  {
  }

  // ---------------------------------------------------------------------------
  // The table.

  datatype Bucket = Empty | Full(atom: nat, value: nat)

  /** The position of the first occurrence of `atom`, or -1. */
  function FirstIndex(atoms: seq<nat>, atom: nat): (i: int)
    ensures -1 <= i < |atoms|
    ensures i >= 0 ==> atoms[i] == atom && forall j | 0 <= j < i :: atoms[j] != atom
    ensures i == -1 <==> atom !in atoms
  {
    if atoms == [] then -1
    else if atoms[0] == atom then 0
    else
      var i := FirstIndex(atoms[1..], atom);
      if i == -1 then -1 else i + 1
  }

  class BucketSequence {
    const tableSize: nat
    const interval: nat
    var bucket: nat
    ghost const hash: nat
    ghost var k: nat

    ghost predicate Valid()
      reads this
    {
      tableSize > 1 && interval == Interval(hash, tableSize) && bucket == Probe(hash, tableSize, k)
    }

    constructor (atom: nat, tableSize: nat)
      requires tableSize > 1
      ensures Valid() && hash == atom && this.tableSize == tableSize && k == 0
    {
      this.tableSize := tableSize;
      hash, k := atom, 0;
      bucket := atom % tableSize;
      interval := atom % (tableSize - 1) + 1;
    }

    method Next()
      requires Valid() && bucket + interval <= MAX_INT
      modifies this
      ensures Valid() && k == old(k) + 1
    {
      bucket := (bucket + interval) % tableSize;
      k := k + 1;
    }
  }

  class AtomTable {
    const buckets: array<Bucket>
    ghost var atoms: seq<nat>      // the atoms inserted
    ghost var places: seq<nat>     // after how many probes each was put down

    ghost predicate Shape()
      reads this
    {
      1 < buckets.Length <= 0x4000_0000 && Prime(buckets.Length) && |places| == |atoms| < buckets.Length
    }

    /** Atom `j` lies on its probe path, behind buckets that were filled earlier. */
    ghost predicate Placed(j: nat)
      requires j < |atoms| && Shape()
      reads this, buckets
    {
      && buckets[Probe(atoms[j], buckets.Length, places[j])] == Full(atoms[j], j)
      && forall k: nat | k < places[j] ::
           var b := buckets[Probe(atoms[j], buckets.Length, k)];
           b.Full? && b.value < j
    }

    /** Every full bucket holds one of the atoms, at its place. */
    ghost predicate Accounted(b: nat)
      requires b < buckets.Length && Shape()
      reads this, buckets
    {
      buckets[b].Full? ==>
        && buckets[b].value < |atoms| && atoms[buckets[b].value] == buckets[b].atom
        && Probe(buckets[b].atom, buckets.Length, places[buckets[b].value]) == b
    }

    ghost predicate Valid()
      reads this, buckets
    {
      && Shape()
      && (forall j | 0 <= j < |atoms| :: Placed(j))
      && (forall b | 0 <= b < buckets.Length :: Accounted(b))
    }

    constructor (size: nat)
      requires Prime(size) && size <= 0x4000_0000
      ensures Valid() && atoms == [] && buckets.Length == size && fresh(buckets)
    {
      buckets := new Bucket[size](_ => Empty);
      atoms, places := [], [];
    }

    /** There are more buckets than atoms, so some bucket is empty. */
    lemma SomeEmpty() returns (b: nat)
      requires Valid()
      ensures b < buckets.Length && buckets[b].Empty?
    {
      if forall b | 0 <= b < buckets.Length :: buckets[b].Full? {
        var values := seq(buckets.Length, b requires 0 <= b < buckets.Length && buckets[b].Full? reads buckets => buckets[b].value);
        forall i, j | 0 <= i < j < |values| ensures values[i] != values[j] {
          assert Accounted(i) && Accounted(j);
        }
        forall v | v in Listed(values) ensures v in Below(|atoms|) {
          var b :| 0 <= b < buckets.Length && values[b] == v;
          assert Accounted(b);
        }
        OnceEachCount(values);
        SubsetCount(Listed(values), Below(|atoms|));
        assert false;
      }
      b :| b < buckets.Length && buckets[b].Empty?;
    }

    /** The probe path of any atom leads to an empty bucket. */
    lemma PathEnds(atom: nat) returns (k: nat)
      requires Valid()
      ensures buckets[Probe(atom, buckets.Length, k)].Empty?
    {
      var b := SomeEmpty();
      k := ProbesReachAll(atom, buckets.Length, b);
    }

    method Insert(atom: nat, value: nat)
      requires Valid() && |atoms| + 1 < buckets.Length && value == |atoms|
      modifies this, buckets
      ensures Valid() && atoms == old(atoms) + [atom]
    {
      ghost var end := PathEnds(atom);
      var path := new BucketSequence(atom, buckets.Length);
      while buckets[path.bucket].Full?
        invariant fresh(path) && path.Valid() && path.hash == atom && path.tableSize == buckets.Length
        invariant path.k <= end && forall k: nat | k < path.k :: buckets[Probe(atom, buckets.Length, k)].Full?
        invariant Valid() && buckets[..] == old(buckets[..]) && atoms == old(atoms)
        invariant buckets[Probe(atom, buckets.Length, end)].Empty?
        decreases end - path.k
      {
        HashFits(atom, buckets.Length, path.k);
        path.Next();
      }
      PutDown(atom, value, path.bucket, path.k);
    }

    method PutDown(atom: nat, value: nat, bucket: nat, ghost k: nat)
      requires Valid() && |atoms| + 1 < buckets.Length && value == |atoms|
      requires bucket == Probe(atom, buckets.Length, k) && buckets[bucket].Empty?
      requires forall i: nat | i < k :: buckets[Probe(atom, buckets.Length, i)].Full?
      modifies this, buckets
      ensures Valid() && atoms == old(atoms) + [atom]
    {
      forall i: nat | i < k ensures buckets[Probe(atom, buckets.Length, i)].value < |atoms| {
        assert Accounted(Probe(atom, buckets.Length, i));
      }
      forall j | 0 <= j < |atoms| ensures Placed(j) {}
      buckets[bucket] := Full(atom, value);
      atoms, places := atoms + [atom], places + [k];
      forall j | 0 <= j < |atoms| ensures Placed(j) {
        if j < |atoms| - 1 { assert old(Placed(j)); }
      }
      forall b | 0 <= b < buckets.Length ensures Accounted(b) {
        if b != bucket { assert old(Accounted(b)); }
      }
    }

    /** Finds the first position at which the atom was inserted. */
    method Lookup(atom: nat) returns (value: int)
      requires Valid()
      ensures value == FirstIndex(atoms, atom)
    {
      ghost var end := PathEnds(atom);
      var path := new BucketSequence(atom, buckets.Length);
      while buckets[path.bucket].Full?
        invariant fresh(path) && path.Valid() && path.hash == atom && path.tableSize == buckets.Length
        invariant path.k <= end && PassedBy(atom, path.k)
        decreases end - path.k
      {
        if buckets[path.bucket].atom == atom {
          FoundFirst(atom, path.k);
          return buckets[path.bucket].value;
        }
        HashFits(atom, buckets.Length, path.k);
        path.Next();
      }
      NotThere(atom, path.k);
      return -1;
    }

    /** The first `n` buckets on the atom's path are full of other atoms. */
    ghost predicate PassedBy(atom: nat, n: nat)
      requires buckets.Length > 1
      reads buckets
    {
      forall k: nat | k < n ::
        var b := buckets[Probe(atom, buckets.Length, k)];
        b.Full? && b.atom != atom
    }

    lemma FoundFirst(atom: nat, n: nat)
      requires Valid() && PassedBy(atom, n)
      requires var b := buckets[Probe(atom, buckets.Length, n)]; b.Full? && b.atom == atom
      ensures buckets[Probe(atom, buckets.Length, n)].value == FirstIndex(atoms, atom)
    {
      var b := buckets[Probe(atom, buckets.Length, n)];
      var i := FirstIndex(atoms, atom);
      assert Accounted(Probe(atom, buckets.Length, n));
      assert atoms[b.value] == atom;
      assert Placed(i);
      if i < b.value {
        // The first one would have been met before, or its path would have a later atom on it.
        if places[i] < n {
          assert false;
        } else if n < places[i] {
          assert false;
        }
      }
    }

    /** Before its own place, an atom's path has no gaps. */
    lemma StillOnPath(j: nat, n: nat)
      requires Valid() && j < |atoms| && PassedBy(atoms[j], n)
      ensures buckets[Probe(atoms[j], buckets.Length, n)].Full?
    {
      assert Placed(j);
    }

    lemma NotThere(atom: nat, n: nat)
      requires Valid() && PassedBy(atom, n) && buckets[Probe(atom, buckets.Length, n)].Empty?
      ensures FirstIndex(atoms, atom) == -1
    {
      var i := FirstIndex(atoms, atom);
      if i >= 0 { StillOnPath(i, n); }
    }
  }

  // ---------------------------------------------------------------------------
  // Building a table.

  const PRIMES := [
    3, 5, 11, 23, 53, 97, 193, 389, 769, 1543, 3079, 6151, 12289, 24593, 49157,
    98317, 196613, 393241, 786433, 1572869, 3145739, 6291469, 12582917, 25165843,
    50331653, 100663319, 201326611, 402653189, 805306457, 1610612741]

  ghost predicate SmallestListed(size: int, wanted: nat) {
    size in PRIMES && size >= wanted && forall p | p in PRIMES && p >= wanted :: size <= p
  }

  /** The smallest listed size that is at least twice the number of elements, or -1. */
  method ComputeTableSize(elementCount: nat) returns (size: int)
    requires elementCount * 2 <= MAX_INT
    ensures size == -1 <==> elementCount * 2 > 1610612741
    ensures size != -1 ==> SmallestListed(size, elementCount * 2)
    ensures size != -1 ==> size > elementCount * 2
    ensures elementCount <= 402653228 ==> 0 < size <= 805306457
  {
    var wanted := elementCount * 2;
    for i := 0 to |PRIMES|
      invariant forall j | 0 <= j < i :: PRIMES[j] < wanted
    {
      if PRIMES[i] >= wanted {
        FirstBigEnough(i, elementCount);
        return PRIMES[i];
      }
    }
    LargestPrimes();
    return -1;
  }

  lemma LargestPrimes()
    ensures |PRIMES| == 30 && PRIMES[28] == 805306457 && PRIMES[29] == 1610612741
  {
  }

  lemma PrimesAscend(i: nat)
    requires i < |PRIMES|
    ensures PRIMES[i] % 2 == 1 && 0 < PRIMES[i] <= 1610612741
    ensures forall j | i <= j < |PRIMES| :: PRIMES[i] <= PRIMES[j]
  {
  }

  lemma FirstBigEnough(i: nat, count: nat)
    requires i < |PRIMES| && PRIMES[i] >= count * 2 && forall j | 0 <= j < i :: PRIMES[j] < count * 2
    ensures PRIMES[i] > count * 2 && count * 2 <= 1610612741
    ensures forall p | p in PRIMES && p >= count * 2 :: PRIMES[i] <= p
    ensures count <= 402653228 ==> 0 < PRIMES[i] <= 805306457
  {
    PrimesAscend(i);
    LargestPrimes();
    if i == 29 { assert PRIMES[28] < count * 2; }
  }

  datatype Element = AtomElement(id: nat) | OtherElement

  datatype Built = Table(table: AtomTable) | Refused(error: string)

  function Ids(elements: seq<Element>): seq<nat>
    requires forall i | 0 <= i < |elements| :: elements[i].AtomElement?
  {
    seq(|elements|, i requires 0 <= i < |elements| => elements[i].id)
  }

  /** Why an array gets no table. */
  function Refusal(array0: Option<seq<Element>>): string {
    if array0.None? then "Wrong type passed to native function atomTable()."
    else if exists i :: 0 <= i < |array0.value| && array0.value[i].OtherElement? then
      "Wrong type for element of array passed to atomTable()."
    else "Tried to build ridiculously large atom table.  Refused."
  }

  /** Build the table of an array, if it is an array of atoms.  For more than 402653228 atoms the
      table has too many buckets for 32-bit arithmetic, until there are too many for any table. */
  method BuildTable(array0: Option<seq<Element>>) returns (built: Built)
    requires forall p | p in PRIMES :: Prime(p)
    requires array0.Some? ==> |array0.value| * 2 <= MAX_INT
    requires array0.Some? ==> |array0.value| <= 402653228 || |array0.value| * 2 > 1610612741
    ensures built.Table? <==> array0.Some? && |array0.value| <= 402653228
                              && forall i | 0 <= i < |array0.value| :: array0.value[i].AtomElement?
    ensures built.Table? ==> fresh(built.table) && built.table.Valid() && built.table.atoms == Ids(array0.value)
    ensures built.Table? ==> SmallestListed(built.table.buckets.Length, |array0.value| * 2)
    ensures built.Refused? ==> built.error == Refusal(array0)
  {
    if array0.None? { return Refused("Wrong type passed to native function atomTable()."); }
    var elements := array0.value;
    for i := 0 to |elements|
      invariant forall j | 0 <= j < i :: elements[j].AtomElement?
    {
      if elements[i].OtherElement? { return Refused("Wrong type for element of array passed to atomTable()."); }
    }
    var size := ComputeTableSize(|elements|);
    if size == -1 { return Refused("Tried to build ridiculously large atom table.  Refused."); }
    var table := new AtomTable(size);
    for i := 0 to |elements|
      invariant fresh(table) && fresh(table.buckets) && table.Valid() && table.buckets.Length == size
      invariant table.atoms == Ids(elements)[..i]
    {
      table.Insert(elements[i].id, i);
      assert Ids(elements)[..i + 1] == Ids(elements)[..i] + [elements[i].id];
    }
    assert Ids(elements)[..|elements|] == Ids(elements);
    return Table(table);
  }
}
