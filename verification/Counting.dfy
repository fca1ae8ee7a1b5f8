/** Counting arguments about finite sets. */
module Counting {

  /** The numbers from zero up to but excluding `n`. */
  ghost function Below(n: nat): (all: set<int>)
    ensures |all| == n
    ensures forall x :: x in all <==> 0 <= x < n
  {
    if n == 0 then {} else Below(n - 1) + {n - 1}
  }

  /** A one-to-one function leads into a set at least as large. */
  lemma {:induction false} Injection<A, B>(a: set<A>, b: set<B>, f: A --> B)
    requires forall x | x in a :: f.requires(x) && f(x) in b
    requires forall x, y | x in a && y in a && f(x) == f(y) :: x == y
    ensures |a| <= |b|
  {
    if a != {} {
      var x :| x in a;
      Injection(a - {x}, b - {f(x)}, f);
    }
  }

  lemma SubsetCount<T>(a: set<T>, b: set<T>)
    requires a <= b
    ensures |a| <= |b|
  {
    Injection(a, b, (x: T) => x);
  }

  ghost function Listed<T>(items: seq<T>): set<T> { set x | x in items }

  ghost predicate OnceEach<T(!new)>(items: seq<T>) { forall i, j | 0 <= i < j < |items| :: items[i] != items[j] }

  lemma {:induction false} OnceEachCount<T(!new)>(items: seq<T>)
    requires OnceEach(items)
    ensures |Listed(items)| == |items|
  {
    if items != [] {
      var last := |items| - 1;
      OnceEachCount(items[..last]);
      assert Listed(items) == Listed(items[..last]) + {items[last]};
    }
  }

  /** A list of `n` different numbers below `n` has all of them. */
  lemma AllListed(items: seq<int>, y: int)
    requires OnceEach(items) && (forall x | x in items :: 0 <= x < |items|) && 0 <= y < |items|
    ensures y in items
  {
    OnceEachCount(items);
    if y !in items {
      SubsetCount(Listed(items), Below(|items|) - {y});
      assert false;
    }
  }
}
