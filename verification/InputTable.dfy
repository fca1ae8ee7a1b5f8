/** The table of constants a module needs, and the numbers they are given. */
module InputTables {
  import opened Source

  /** A compiled module: its code, and its constants in table order. */
  datatype CompiledModule = CompiledModule(
    codeTree: seq<nat>, imports: seq<string>, integers: seq<int>, atoms: seq<string>, blobs: seq<string>)

  function Labelled<K>(keys: seq<K>, make: K -> Literal): seq<Literal> {
    seq(|keys|, i requires 0 <= i < |keys| => make(keys[i]))
  }

  /** The constant table: imports, then integers, atoms and data. */
  function TableOf(imports: seq<string>, integers: seq<int>, atoms: seq<string>, blobs: seq<string>): seq<Literal> {
    Labelled(imports, k => Import(k)) + Labelled(integers, k => Integer(k))
      + Labelled(atoms, k => Atom(k)) + Labelled(blobs, k => Bytes(k))
  }

  lemma TableEntry(i: nat, a: seq<string>, b: seq<int>, c: seq<string>, d: seq<string>)
    requires i < |a| + |b| + |c| + |d|
    ensures |TableOf(a, b, c, d)| == |a| + |b| + |c| + |d|
    ensures TableOf(a, b, c, d)[i]
         == if i < |a| then Import(a[i])
            else if i < |a| + |b| then Integer(b[i - |a|])
            else if i < |a| + |b| + |c| then Atom(c[i - |a| - |b|])
            else Bytes(d[i - |a| - |b| - |c|])
  {
  }

  /** `keys` lists the keys of `numbers` once each, and `numbers` gives their positions,
      counted from `first`. */
  ghost predicate Numbered<K(!new)>(numbers: map<K, nat>, keys: seq<K>, first: nat) {
    && (forall k | k in numbers :: first <= numbers[k] < first + |keys| && keys[numbers[k] - first] == k)
    && (forall i | 0 <= i < |keys| :: keys[i] in numbers && numbers[keys[i]] == first + i)
  }

  method Number<K(==,!new)>(keys: set<K>, first: nat) returns (numbers: map<K, nat>, listed: seq<K>)
    ensures numbers.Keys == keys && Numbered(numbers, listed, first)
  {
    numbers, listed := map[], [];
    var remaining := keys;
    while remaining != {}
      invariant remaining <= keys && numbers.Keys == keys - remaining && Numbered(numbers, listed, first)
      decreases remaining
    {
      var k :| k in remaining;
      remaining := remaining - {k};
      numbers := numbers[k := first + |listed|];
      listed := listed + [k];
    }
  }

  class InputTable {
    var imports: map<string, nat>
    var integers: map<int, nat>
    var atoms: map<string, nat>
    var blobs: map<string, nat>
    ghost var contents: set<Literal>

    /** `contents` is everything registered so far. */
    ghost predicate Valid()
      reads this
    {
      forall l :: l in contents <==> Registered(l)
    }

    constructor ()
      ensures Valid() && contents == {}
    {
      imports, integers, atoms, blobs, contents := map[], map[], map[], map[], {};
    }

    predicate Registered(l: Literal)
      reads this
    {
      match l
      case Import(path) => path in imports
      case Integer(i) => i in integers
      case Atom(name) => name in atoms
      case Bytes(bytes) => bytes in blobs
    }

    function Index(l: Literal): nat
      requires Registered(l)
      reads this
    {
      match l
      case Import(path) => imports[path]
      case Integer(i) => integers[i]
      case Atom(name) => atoms[name]
      case Bytes(bytes) => blobs[bytes]
    }

    method Add(l: Literal)
      requires Valid()
      modifies this
      ensures Valid() && contents == old(contents) + {l}
    {
      contents := contents + {l};
      match l
      case Import(path) => imports := imports[path := 0];
      case Integer(i) => integers := integers[i := 0];
      case Atom(name) => atoms := atoms[name := 0];
      case Bytes(bytes) => blobs := blobs[bytes := 0];
    }

    /** Every registered literal has the number of its only place in `table`. */
    ghost predicate Numbers(table: seq<Literal>)
      reads this
    {
      && (forall l | Registered(l) :: Index(l) < |table| && table[Index(l)] == l)
      && (forall i | 0 <= i < |table| :: Registered(table[i]) && Index(table[i]) == i)
    }

    /** Number all registered literals, group by group. */
    method Finalize() returns (m: CompiledModule)
      requires Valid()
      modifies this
      ensures Valid() && contents == old(contents)
      ensures Numbers(TableOf(m.imports, m.integers, m.atoms, m.blobs)) && m.codeTree == []
    {
      m := NumberGroups();
      forall l ensures Registered(l) == old(Registered(l)) {
        match l
        case Import(path) => assert path in imports.Keys <==> path in old(imports.Keys);
        case Integer(i) => assert i in integers.Keys <==> i in old(integers.Keys);
        case Atom(name) => assert name in atoms.Keys <==> name in old(atoms.Keys);
        case Bytes(bytes) => assert bytes in blobs.Keys <==> bytes in old(blobs.Keys);
      }
    }

    method NumberGroups() returns (m: CompiledModule)
      modifies this
      ensures contents == old(contents)
      ensures imports.Keys == old(imports.Keys) && integers.Keys == old(integers.Keys)
      ensures atoms.Keys == old(atoms.Keys) && blobs.Keys == old(blobs.Keys)
      ensures Numbers(TableOf(m.imports, m.integers, m.atoms, m.blobs)) && m.codeTree == []
    {
      var a, b, c, d;
      imports, a := Number(imports.Keys, 0);
      integers, b := Number(integers.Keys, |a|);
      atoms, c := Number(atoms.Keys, |a| + |b|);
      blobs, d := Number(blobs.Keys, |a| + |b| + |c|);
      m := CompiledModule([], a, b, c, d);
      GroupsNumbered(TableOf(a, b, c, d), a, b, c, d);
    }

    lemma GroupsNumbered(table: seq<Literal>, a: seq<string>, b: seq<int>, c: seq<string>, d: seq<string>)
      requires table == TableOf(a, b, c, d)
      requires Numbered(imports, a, 0) && Numbered(integers, b, |a|)
      requires Numbered(atoms, c, |a| + |b|) && Numbered(blobs, d, |a| + |b| + |c|)
      ensures Numbers(table)
    {
      forall i | 0 <= i < |table| ensures Registered(table[i]) && Index(table[i]) == i {
        EntryNumbered(i, a, b, c, d);
      }
      forall l | Registered(l) ensures Index(l) < |table| && table[Index(l)] == l {
        LiteralNumbered(l, a, b, c, d);
      }
    }

    lemma EntryNumbered(i: nat, a: seq<string>, b: seq<int>, c: seq<string>, d: seq<string>)
      requires i < |TableOf(a, b, c, d)|
      requires Numbered(imports, a, 0) && Numbered(integers, b, |a|)
      requires Numbered(atoms, c, |a| + |b|) && Numbered(blobs, d, |a| + |b| + |c|)
      ensures Registered(TableOf(a, b, c, d)[i]) && Index(TableOf(a, b, c, d)[i]) == i
    {
      TableEntry(i, a, b, c, d);
    }

    lemma LiteralNumbered(l: Literal, a: seq<string>, b: seq<int>, c: seq<string>, d: seq<string>)
      requires Registered(l)
      requires Numbered(imports, a, 0) && Numbered(integers, b, |a|)
      requires Numbered(atoms, c, |a| + |b|) && Numbered(blobs, d, |a| + |b| + |c|)
      ensures Index(l) < |TableOf(a, b, c, d)| && TableOf(a, b, c, d)[Index(l)] == l
    {
      TableEntry(Index(l), a, b, c, d);
    }

    /** Look up a literal; only registered ones may be asked for. */
    method Lookup(l: Literal, ghost table: seq<Literal>) returns (i: nat)
      requires Numbers(table) && Registered(l)
      ensures i < |table| && table[i] == l
      ensures forall j | 0 <= j < |table| && table[j] == l :: j == i
    {
      match l
      case Import(path) => i := imports[path];
      case Integer(n) => i := integers[n];
      case Atom(name) => i := atoms[name];
      case Bytes(bytes) => i := blobs[bytes];
    }
  }
}
