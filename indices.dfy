/** Variable indices, rows of linked variables and the adjacency structure of an instance. */
module Indices {

  /** The variables one table row depends on, in row order. */
  type Row = seq<nat>

  /** One row per local contribution of the fitness function. */
  type Adjacency = seq<Row>

  /** `list(range(lo, hi))`. */
  function Range(lo: nat, hi: nat): (r: seq<nat>)
    requires lo <= hi
    ensures |r| == hi - lo
    ensures forall t :: 0 <= t < |r| ==> r[t] == lo + t
  {
    seq(hi - lo, t => lo + t)
  }

  lemma RangeMembers(lo: nat, hi: nat)
    requires lo <= hi
    ensures forall x :: x in Range(lo, hi) <==> lo <= x < hi
  {
    var r := Range(lo, hi);
    forall x | lo <= x < hi ensures x in r {
      assert r[x - lo] == x;
    }
  }

  predicate Distinct<T(==)>(s: seq<T>) {
    forall a, b :: 0 <= a < b < |s| ==> s[a] != s[b]
  }

  /** `s.index(y)`: the position of the first occurrence of `y` in `s`. */
  function IndexOf<T(==)>(s: seq<T>, y: T): (t: nat)
    requires y in s
    ensures t < |s| && s[t] == y
    ensures forall u :: 0 <= u < t ==> s[u] != y
  {
    if s[0] == y then 0 else 1 + IndexOf(s[1..], y)
  }

  predicate Below(s: seq<nat>, n: nat) {
    forall a :: 0 <= a < |s| ==> s[a] < n
  }

  /** Every row of `adj` is a row of distinct variables of an `n`-variable problem. */
  predicate WellFormed(adj: Adjacency, n: nat) {
    forall g :: 0 <= g < |adj| ==> Distinct(adj[g]) && Below(adj[g], n)
  }

  /** `s` is a possible outcome of `random.sample(population, k)`: k distinct members, in draw order. */
  predicate IsSample(s: seq<nat>, population: set<nat>, k: nat) {
    |s| == k && Distinct(s) && forall a :: 0 <= a < |s| ==> s[a] in population
  }

  /** `p` is a possible outcome of `random.shuffle(list(range(n)))`. */
  predicate IsPermutation(p: seq<nat>, n: nat) {
    |p| == n && Distinct(p) && Below(p, n)
  }

  /** All variables of an `n`-variable problem except `i`. */
  function Others(n: nat, i: nat): (r: set<nat>)
    ensures forall x :: x in r <==> 0 <= x < n && x != i
  {
    RangeMembers(0, n);
    set x | x in Range(0, n) && x != i
  }

  /** Rows of `adj` laid end to end. */
  function Flatten(adj: Adjacency): seq<nat> {
    if adj == [] then [] else adj[0] + Flatten(adj[1..])
  }

  lemma {:induction false} FlattenAppend(a: Adjacency, b: Adjacency)
    ensures Flatten(a + b) == Flatten(a) + Flatten(b)
  {
    if a == [] {
      assert a + b == b;
    } else {
      assert (a + b)[1..] == a[1..] + b;
      FlattenAppend(a[1..], b);
    }
  }

  /** Prepending one element to a row of distinct elements that does not contain it keeps it distinct. */
  lemma ConsDistinct(x: nat, s: seq<nat>)
    requires Distinct(s) && x !in s
    ensures Distinct([x] + s)
  {
    forall a, b | 0 <= a < b < |[x] + s| ensures ([x] + s)[a] != ([x] + s)[b] {
      if a == 0 {
        assert ([x] + s)[b] == s[b - 1];
      }
    }
  }

  /** A subset is no larger than the set holding it. */
  lemma SubsetSize<T>(a: set<T>, b: set<T>)
    requires a <= b
    ensures |a| <= |b|
  {
    assert b == a + (b - a);
  }

  /** Removing the element at `t` takes one copy of it out of the multiset. */
  lemma MultisetRemove<T>(b: seq<T>, t: nat)
    requires t < |b|
    ensures multiset(b) == multiset(b[..t] + b[t + 1..]) + multiset{b[t]}
    ensures multiset(b[..t] + b[t + 1..]) == multiset(b) - multiset{b[t]}
  {
    var l, r := b[..t], b[t + 1..];
    assert b == l + ([b[t]] + r);
    assert multiset(b) == multiset(l) + multiset{b[t]} + multiset(r);
  }

  /** A sequence without repeats holds each value at most once. */
  lemma {:induction false} DistinctCount<T>(b: seq<T>, x: T)
    requires Distinct(b)
    ensures multiset(b)[x] <= 1
    decreases |b|
  {
    if b != [] {
      var n := |b| - 1;
      assert b == b[..n] + [b[n]];
      assert Distinct(b[..n]);
      DistinctCount(b[..n], x);
      assert b[n] !in b[..n];
    }
  }

  /** Dropping the same first element from two permutations of each other leaves two
      permutations of each other. */
  lemma MultisetTail<T>(r: seq<T>, s: seq<T>)
    requires multiset(r) == multiset(s) && r != [] && s != [] && r[0] == s[0]
    ensures multiset(r[1..]) == multiset(s[1..])
  {
    assert r == [r[0]] + r[1..] && s == [s[0]] + s[1..];
    forall y ensures multiset(r[1..])[y] == multiset(s[1..])[y] {
      assert multiset(r)[y] == multiset{r[0]}[y] + multiset(r[1..])[y];
      assert multiset(s)[y] == multiset{s[0]}[y] + multiset(s[1..])[y];
    }
  }

  /** A rearrangement of a sequence without repeats has none either. */
  lemma DistinctPermute<T>(a: seq<T>, b: seq<T>)
    requires multiset(a) == multiset(b) && Distinct(b)
    ensures Distinct(a)
  {
    forall s, t | 0 <= s < t < |a| ensures a[s] != a[t] {
      if a[s] == a[t] {
        assert a == a[..s] + [a[s]] + a[s + 1..t] + [a[t]] + a[t + 1..];
        assert multiset(a)[a[s]] >= 2;
        DistinctCount(b, a[s]);
      }
    }
  }
}
