/** The rearrangement methods applied to a linkage: relabel every variable through a
    random permutation (`Scatter`), or leave the structure as it is (`NoChange`). */
module Rearrangement {
  import opened Indices
  import opened Outcomes

  datatype Arrangement = Scatter | NoChange

  /** Every entry of every row is a variable of an `n`-variable problem. */
  predicate InRange(adj: Adjacency, n: nat) {
    forall g :: 0 <= g < |adj| ==> Below(adj[g], n)
  }

  /** `Scatter(N, epistasis)`: every entry `x` becomes `ordering[x]`, where `ordering` is
      the shuffled `list(range(N))`; an entry past the end of `ordering` is an IndexError. */
  function ScatterRows(n: nat, adj: Adjacency, ordering: seq<nat>): (r: Result<Adjacency>)
    requires IsPermutation(ordering, n)
    ensures r.Err? <==> !InRange(adj, n)
    ensures r.Err? ==> r.error == IndexOutOfRange
    ensures r.Ok? ==> |r.value| == |adj|
    ensures r.Ok? ==> forall g :: 0 <= g < |adj| ==> |r.value[g]| == |adj[g]|
    ensures r.Ok? ==> forall g, a :: 0 <= g < |adj| && 0 <= a < |adj[g]| ==>
      r.value[g][a] == ordering[adj[g][a]]
  {
    if !InRange(adj, n) then Err(IndexOutOfRange)
    else Ok(seq(|adj|, g requires 0 <= g < |adj| =>
              seq(|adj[g]|, a requires 0 <= a < |adj[g]| => ordering[adj[g][a]])))
  }

  /** `NoChange(N, epistasis)` hands the linkage back untouched. */
  function NoChangeRows(adj: Adjacency): (r: Adjacency)
    ensures r == adj
  {
    adj
  }

  /** `arrangement(N, epistasis)`; only `Scatter` draws an ordering. */
  function Rearrange(kind: Arrangement, n: nat, adj: Adjacency, ordering: seq<nat>): Result<Adjacency>
    requires kind == Scatter ==> IsPermutation(ordering, n)
  {
    match kind
    case Scatter => ScatterRows(n, adj, ordering)
    case NoChange => Ok(NoChangeRows(adj))
  }

  /** Relabelling with the inverse of `ordering`. */
  function Unscatter(adj: Adjacency, ordering: seq<nat>): Adjacency
    requires forall g, a :: 0 <= g < |adj| && 0 <= a < |adj[g]| ==> adj[g][a] in ordering
  {
    seq(|adj|, g requires 0 <= g < |adj| =>
      seq(|adj[g]|, a requires 0 <= a < |adj[g]| => IndexOf(ordering, adj[g][a])))
  }

  /** Scattering loses nothing: relabelling back through the inverse permutation recovers
      the original linkage. */
  lemma ScatterInverse(n: nat, adj: Adjacency, ordering: seq<nat>)
    requires IsPermutation(ordering, n) && InRange(adj, n)
    ensures var s := ScatterRows(n, adj, ordering).value;
      (forall g, a :: 0 <= g < |s| && 0 <= a < |s[g]| ==> s[g][a] in ordering) &&
      Unscatter(s, ordering) == adj
  {
    var s := ScatterRows(n, adj, ordering).value;
    forall g, a | 0 <= g < |s| && 0 <= a < |s[g]|
      ensures s[g][a] in ordering && IndexOf(ordering, s[g][a]) == adj[g][a]
    {
      var x := adj[g][a];
      assert s[g][a] == ordering[x];
      var t := IndexOf(ordering, ordering[x]);
      assert ordering[t] == ordering[x];
    }
    var u := Unscatter(s, ordering);
    assert |u| == |adj|;
    forall g | 0 <= g < |adj| ensures u[g] == adj[g] {
      assert |u[g]| == |adj[g]|;
    }
  }

  /** Relabelling through a permutation keeps every row a row of distinct variables. */
  lemma ScatterWellFormed(n: nat, adj: Adjacency, ordering: seq<nat>)
    requires IsPermutation(ordering, n) && WellFormed(adj, n)
    ensures ScatterRows(n, adj, ordering).Ok?
    ensures WellFormed(ScatterRows(n, adj, ordering).value, n)
  {
    var s := ScatterRows(n, adj, ordering).value;
    forall g | 0 <= g < |s| ensures Distinct(s[g]) && Below(s[g], n) {
      forall a, b | 0 <= a < b < |s[g]| ensures s[g][a] != s[g][b] {
        assert adj[g][a] != adj[g][b];
      }
    }
  }

  /** Both rearrangements keep the number of rows, each row's length, the range of
      the entries and, for rows of distinct variables, their distinctness. */
  lemma RearrangeShape(kind: Arrangement, n: nat, adj: Adjacency, ordering: seq<nat>)
    requires (kind == Scatter ==> IsPermutation(ordering, n)) && InRange(adj, n)
    ensures Rearrange(kind, n, adj, ordering).Ok?
    ensures var r := Rearrange(kind, n, adj, ordering).value;
      |r| == |adj| && (forall g :: 0 <= g < |adj| ==> |r[g]| == |adj[g]|) && InRange(r, n)
    ensures WellFormed(adj, n) ==> WellFormed(Rearrange(kind, n, adj, ordering).value, n)
  {
    if kind == Scatter && WellFormed(adj, n) {
      ScatterWellFormed(n, adj, ordering);
    }
  }
}
