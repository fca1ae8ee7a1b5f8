/** Finding what an import refers to: a value registered under its name, or whatever a
    sub-resolver registered for a prefix of the name makes of the rest. */
module ImportResolvers {
  import opened Values

  // ---------------------------------------------------------------------------
  // Lexical order.

  predicate Less(a: string, b: string) {
    if b == [] then false
    else if a == [] then true
    else a[0] < b[0] || (a[0] == b[0] && Less(a[1..], b[1..]))
  }

  lemma {:induction false} LessIsTransitive(a: string, b: string, c: string)
    requires Less(a, b) && Less(b, c)
    ensures Less(a, c)
  {
    if a != [] && a[0] == b[0] && b[0] == c[0] { LessIsTransitive(a[1..], b[1..], c[1..]); }
  }

  lemma {:induction false} LessIsTotal(a: string, b: string)
    ensures a == b || Less(a, b) || Less(b, a)
    ensures !(Less(a, b) && Less(b, a)) && !Less(a, a)
  {
    if a != [] && b != [] {
      LessIsTotal(a[1..], b[1..]);
      LessIsTotal(a[1..], a[1..]);
      if a[0] == b[0] && a[1..] == b[1..] { assert a == [a[0]] + a[1..] && b == [b[0]] + b[1..]; }
    } else if a != [] {
      LessIsTotal(a[1..], a[1..]);
    }
  }

  /** A prefix comes before what it is a prefix of. */
  lemma {:induction false} PrefixIsLess(a: string, b: string)
    requires a <= b && a != b
    ensures Less(a, b)
  {
    if a != [] {
      assert a[1..] <= b[1..] && a[0] == b[0];
      assert a == [a[0]] + a[1..] && b == [b[0]] + b[1..];
      PrefixIsLess(a[1..], b[1..]);
    }
  }

  // ---------------------------------------------------------------------------
  // The resolver.

  /** A name is mapped to a value, or a prefix to another resolver. */
  datatype Target<V> = Value(value: V) | Resolver(id: nat)

  datatype Mapping<V> = Mapping(name: string, target: Target<V>)

  /** `key` is the longest name in the map that is a prefix of `name`. */
  ghost predicate LongestPrefix<V>(targets: map<string, Target<V>>, name: string, key: string) {
    key in targets && key <= name && forall k | k in targets && k <= name :: |k| <= |key|
  }

  /** `name` is `key` followed by `rest`, and no longer name in the map is a prefix of it. */
  ghost predicate LeadsTo<V>(targets: map<string, Target<V>>, name: string, key: string, rest: string) {
    LongestPrefix(targets, name, key) && name == key + rest
  }

  /** What an import finds at the longest prefix, when `rest` of its name is left. */
  function Found<V>(target: Target<V>, rest: string, resolve: (nat, string) -> Option<V>): Option<V> {
    match target
    case Resolver(id) => resolve(id, rest)
    case Value(v) => if rest == "" then Some(v) else None
  }

  /** The mappings are those of `targets`, in lexical order. */
  ghost predicate Lists<V>(mappings: seq<Mapping<V>>, targets: map<string, Target<V>>) {
    && Ascending(mappings)
    && (forall i | 0 <= i < |mappings| :: mappings[i].name in targets && targets[mappings[i].name] == mappings[i].target)
    && (forall key | key in targets :: Listed(mappings, key))
  }

  ghost predicate Ascending<V>(mappings: seq<Mapping<V>>) {
    forall i, j | 0 <= i < j < |mappings| :: Less(mappings[i].name, mappings[j].name)
  }

  ghost predicate Listed<V>(mappings: seq<Mapping<V>>, key: string) {
    exists i :: 0 <= i < |mappings| && mappings[i].name == key
  }

  lemma Replaced<V>(mappings: seq<Mapping<V>>, targets: map<string, Target<V>>, i: nat, m: Mapping<V>)
    requires Lists(mappings, targets) && i < |mappings| && mappings[i].name == m.name
    ensures Lists(mappings[i := m], targets[m.name := m.target])
  {
    var after := mappings[i := m];
    assert forall j | 0 <= j < |mappings| :: after[j].name == mappings[j].name;
    forall j | 0 <= j < |mappings| && j != i ensures mappings[j].name != m.name {
      LessIsTotal(m.name, m.name);
      if j < i { assert Less(mappings[j].name, mappings[i].name); } else { assert Less(mappings[i].name, mappings[j].name); }
    }
    forall key | key in targets[m.name := m.target] ensures Listed(after, key) {
      if key == m.name {
        assert after[i].name == key;
      } else {
        assert Listed(mappings, key);
      }
    }
  }

  lemma Inserted<V>(mappings: seq<Mapping<V>>, targets: map<string, Target<V>>, i: nat, m: Mapping<V>)
    requires Lists(mappings, targets) && i <= |mappings|
    requires forall j | 0 <= j < i :: Less(mappings[j].name, m.name)
    requires forall j | i <= j < |mappings| :: Less(m.name, mappings[j].name)
    ensures Lists(mappings[..i] + [m] + mappings[i..], targets[m.name := m.target])
  {
    var after, more := mappings[..i] + [m] + mappings[i..], targets[m.name := m.target];
    InsertedAt(mappings, i, m);
    LessIsTotal(m.name, m.name);
    forall k | 0 <= k < |after| ensures after[k].name in more && more[after[k].name] == after[k].target {
      if k < i {
        assert after[k] == mappings[k];
      } else if k > i {
        assert after[k] == mappings[k - 1];
      }
    }
    forall key | key in more ensures Listed(after, key) {
      if key == m.name { assert after[i].name == key; } else { StillListed(mappings, after, i, key); }
    }
  }

  lemma StillListed<V>(mappings: seq<Mapping<V>>, after: seq<Mapping<V>>, i: nat, key: string)
    requires Listed(mappings, key) && i <= |mappings| && |after| == |mappings| + 1
    requires forall k | 0 <= k < |after| && k != i :: after[k] == mappings[if k < i then k else k - 1]
    ensures Listed(after, key)
  {
    var j :| 0 <= j < |mappings| && mappings[j].name == key;
    assert after[if j < i then j else j + 1].name == key;
  }

  lemma InsertedAt<V>(mappings: seq<Mapping<V>>, i: nat, m: Mapping<V>)
    requires Ascending(mappings) && i <= |mappings|
    requires forall j | 0 <= j < i :: Less(mappings[j].name, m.name)
    requires forall j | i <= j < |mappings| :: Less(m.name, mappings[j].name)
    ensures var after := mappings[..i] + [m] + mappings[i..];
      && |after| == |mappings| + 1 && after[i] == m
      && (forall k | 0 <= k < |after| :: after[k] == if k == i then m else mappings[if k < i then k else k - 1])
      && Ascending(after)
  {
    var after := mappings[..i] + [m] + mappings[i..];
    assert forall k | 0 <= k < |after| :: after[k] == if k == i then m else mappings[if k < i then k else k - 1];
  }

  class MappedImportResolver<V> {
    var mappings: seq<Mapping<V>>               // sorted by name
    ghost var targets: map<string, Target<V>>

    ghost predicate Valid()
      reads this
    {
      Lists(mappings, targets)
    }

    constructor ()
      ensures Valid() && targets == map[]
    {
      mappings, targets := [], map[];
    }

    /** The position of the first name after `name`. */
    method UpperBound(name: string) returns (i: nat)
      requires Valid()
      ensures i <= |mappings|
      ensures forall j | 0 <= j < i :: !Less(name, mappings[j].name)
      ensures forall j | i <= j < |mappings| :: Less(name, mappings[j].name)
    {
      i := 0;
      while i < |mappings| && !Less(name, mappings[i].name)
        invariant i <= |mappings| && forall j | 0 <= j < i :: !Less(name, mappings[j].name)
      {
        i := i + 1;
      }
      forall j | i <= j < |mappings| ensures Less(name, mappings[j].name) {
        if i < j { LessIsTransitive(name, mappings[i].name, mappings[j].name); }
      }
    }

    method Put(name: string, target: Target<V>)
      requires Valid()
      modifies this
      ensures Valid() && targets == old(targets)[name := target]
    {
      var i := UpperBound(name);
      if i > 0 && mappings[i - 1].name == name {
        Replaced(mappings, targets, i - 1, Mapping(name, target));
        mappings := mappings[i - 1 := Mapping(name, target)];
      } else {
        EarlierNames(name, i);
        Inserted(mappings, targets, i, Mapping(name, target));
        mappings := mappings[..i] + [Mapping(name, target)] + mappings[i..];
      }
      targets := targets[name := target];
    }

    lemma EarlierNames(name: string, i: nat)
      requires Valid() && i <= |mappings| && forall j | 0 <= j < i :: !Less(name, mappings[j].name)
      requires i > 0 ==> mappings[i - 1].name != name
      ensures forall j | 0 <= j < i :: Less(mappings[j].name, name)
    {
      forall j | 0 <= j < i ensures Less(mappings[j].name, name) {
        LessIsTotal(mappings[i - 1].name, name);
        if j < i - 1 { LessIsTransitive(mappings[j].name, mappings[i - 1].name, name); }
      }
    }

    method Map(name: string, value: V)
      requires Valid()
      modifies this
      ensures Valid() && targets == old(targets)[name := Value(value)]
    {
      Put(name, Value(value));
    }

    method MapPrefix(prefix: string, resolver: nat)
      requires Valid()
      modifies this
      ensures Valid() && targets == old(targets)[prefix := Resolver(resolver)]
    {
      Put(prefix, Resolver(resolver));
    }

    /** Search backwards from the name's place in the order: the first prefix met is the longest. */
    method Import(name: string, resolve: (nat, string) -> Option<V>) returns (found: Option<V>)
      requires Valid()
      ensures (forall key | key in targets :: !(key <= name)) ==> found == None
      ensures forall key, rest | LeadsTo(targets, name, key, rest) :: found == Found(targets[key], rest, resolve)
    {
      var i := UpperBound(name);
      NoPrefixAfter(name, i);
      while i > 0
        invariant 0 <= i <= |mappings| && forall j | i <= j < |mappings| :: !(mappings[j].name <= name)
      {
        i := i - 1;
        if mappings[i].name <= name {
          FirstIsLongest(name, i);
          var m := mappings[i];
          OnlyRest(name, m.name);
          match m.target
          case Resolver(id) => return resolve(id, name[|m.name|..]);
          case Value(v) => return if m.name == name then Some(v) else None;
        }
      }
      forall key | key in targets ensures !(key <= name) {
        assert Listed(mappings, key);
      }
      return None;
    }

    lemma OnlyRest(name: string, key: string)
      requires key <= name
      ensures forall rest :: name == key + rest ==> rest == name[|key|..] && (rest == "" <==> key == name)
    {
      forall rest | name == key + rest ensures rest == name[|key|..] && (rest == "" <==> key == name) {
        assert (key + rest)[|key|..] == rest;
      }
    }

    lemma NoPrefixAfter(name: string, i: nat)
      requires Valid() && i <= |mappings| && forall j | i <= j < |mappings| :: Less(name, mappings[j].name)
      ensures forall j | i <= j < |mappings| :: !(mappings[j].name <= name)
    {
      forall j | i <= j < |mappings| ensures !(mappings[j].name <= name) {
        LessIsTotal(name, mappings[j].name);
        if mappings[j].name <= name && mappings[j].name != name { PrefixIsLess(mappings[j].name, name); }
      }
    }

    lemma FirstIsLongest(name: string, i: nat)
      requires Valid() && i < |mappings| && mappings[i].name <= name
      requires forall j | i < j < |mappings| :: !(mappings[j].name <= name)
      ensures LongestPrefix(targets, name, mappings[i].name)
      ensures forall key | LongestPrefix(targets, name, key) :: key == mappings[i].name
    {
      forall k | k in targets && k <= name ensures |k| <= |mappings[i].name| && (|k| == |mappings[i].name| ==> k == mappings[i].name) {
        assert Listed(mappings, k);
        var j :| 0 <= j < |mappings| && mappings[j].name == k;
        assert k == name[..|k|] && mappings[i].name == name[..|mappings[i].name|];
        if j < i && |k| > |mappings[i].name| {
          assert mappings[i].name <= k;
          PrefixIsLess(mappings[i].name, k);
          LessIsTotal(k, mappings[i].name);
        }
      }
    }
  }

  /** A value hides shorter prefixes from the names that go on from its own: such an import
      finds nothing, even if it starts with a prefix that has been given to a resolver. */
  lemma ValueHidesPrefix<V(!new)>(value: V, resolver: nat, resolve: (nat, string) -> Option<V>)
    ensures var targets := map["a" := Resolver(resolver), "ab" := Value(value)];
      && LeadsTo(targets, "abc", "ab", "c") && "a" <= "abc"
      && Found(targets["ab"], "c", resolve) == None
  {
    assert "ab" <= "abc" && "a" <= "abc" && "abc" == "ab" + "c";
  }

  /** An import gets to the resolver of a prefix exactly when no longer name in the map is a prefix
      of the import. */
  lemma ReachesResolver<V(!new)>(targets: map<string, Target<V>>, name: string, prefix: string, key: string)
    requires prefix in targets && targets[prefix].Resolver? && prefix <= name && LongestPrefix(targets, name, key)
    ensures key == prefix <==> forall k | k in targets && |prefix| < |k| :: !(k <= name)
  {
    assert prefix == name[..|prefix|] && key == name[..|key|];
  }
}
