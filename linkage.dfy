/** The comprehension-style linkage models: nearest neighbour windows, unrestricted
    random links, and satisfiability-style random clauses. */
module Linkage {
  import opened Indices
  import opened Outcomes

  /** All variables of an `n`-variable problem, `set(range(n))`. */
  function Variables(n: nat): (r: set<nat>)
    ensures forall x :: x in r <==> 0 <= x < n
  {
    RangeMembers(0, n);
    set x | x in Range(0, n)
  }

  // ---------------------------------------------------------------- NearestNeighbor

  /** Each variable depends on itself and the `k` variables that follow it, wrapping around. */
  function NearestNeighbor(n: nat, k: nat): (adj: Adjacency)
    ensures |adj| == n
    ensures forall i :: 0 <= i < n ==> |adj[i]| == k + 1
    ensures forall i, j :: 0 <= i < n && 0 <= j <= k ==> adj[i][j] == (i + j) % n
  {
    seq(n, i requires 0 <= i < n => seq(k + 1, j => (i + j) % n))
  }

  /** Two offsets closer together than `n` land on different residues. */
  lemma ModInjective(i: nat, a: nat, b: nat, n: nat)
    requires a < b && b - a < n
    ensures (i + a) % n != (i + b) % n
  {
    var x, y := i + a, i + b;
    var qx, qy := x / n, y / n;
    assert x == n * qx + x % n;
    assert y == n * qy + y % n;
    if x % n == y % n {
      assert b - a == n * qy - n * qx == n * (qy - qx);
      MulSign(n, qy - qx);
    }
  }

  lemma MulSign(n: int, d: int)
    requires n > 0
    ensures d <= 0 ==> n * d <= 0
    ensures d >= 1 ==> n * d >= n
  {
  }

  /** Row `i` starts with `i`, every entry is a variable, and when the window is shorter
      than the genome no variable appears twice in a row. */
  lemma NearestNeighborWellFormed(n: nat, k: nat)
    ensures forall i :: 0 <= i < n ==> NearestNeighbor(n, k)[i][0] == i
    ensures forall i :: 0 <= i < n ==> Below(NearestNeighbor(n, k)[i], n)
    ensures k < n ==> WellFormed(NearestNeighbor(n, k), n)
  {
    forall i | 0 <= i < n
      ensures NearestNeighbor(n, k)[i][0] == i && Below(NearestNeighbor(n, k)[i], n)
      ensures k < n ==> Distinct(NearestNeighbor(n, k)[i])
    {
      RowBelow(n, k, i);
      if k < n {
        RowDistinct(n, k, i);
      }
    }
  }

  lemma RowBelow(n: nat, k: nat, i: nat)
    requires i < n
    ensures NearestNeighbor(n, k)[i][0] == i && Below(NearestNeighbor(n, k)[i], n)
  {
    var row := NearestNeighbor(n, k)[i];
    assert row[0] == (i + 0) % n == i;
    forall a | 0 <= a < |row| ensures row[a] < n {
      assert row[a] == (i + a) % n;
    }
  }

  lemma RowDistinct(n: nat, k: nat, i: nat)
    requires i < n && k < n
    ensures Distinct(NearestNeighbor(n, k)[i])
  {
    var row := NearestNeighbor(n, k)[i];
    forall a, b | 0 <= a < b < |row| ensures row[a] != row[b] {
      assert row[a] == (i + a) % n && row[b] == (i + b) % n;
      ModInjective(i, a, b, n);
    }
  }

  /** With N = 5 and K = 2 the first row is (0,1,2) and the last wraps around to (4,0,1). */
  lemma NearestNeighborExample()
    ensures NearestNeighbor(5, 2)[0] == [0, 1, 2]
    ensures NearestNeighbor(5, 2)[4] == [4, 0, 1]
  {
  }

  // ---------------------------------------------------------------- Unrestricted

  /** The samples an `Unrestricted` call can draw: for row `i`, `k` distinct variables other than `i`. */
  predicate UnrestrictedDraws(n: nat, k: nat, draws: seq<seq<nat>>)
    requires |draws| == n
  {
    forall i :: 0 <= i < n ==> IsSample(draws[i], Others(n, i), k)
  }

  /** Each variable depends on itself and `k` others drawn without replacement;
      `draws[i]` is the sample drawn for row `i`. */
  function Unrestricted(n: nat, k: nat, draws: seq<seq<nat>>): (r: Result<Adjacency>)
    requires |draws| == n
    requires k < n ==> UnrestrictedDraws(n, k, draws)
    ensures r.Err? <==> 0 < n <= k
    ensures r.Err? ==> r.error == SampleLargerThanPopulation
    ensures r.Ok? ==> |r.value| == n && WellFormed(r.value, n)
    ensures r.Ok? ==> forall i :: 0 <= i < n ==> |r.value[i]| == k + 1 && r.value[i][0] == i
  {
    if 0 < n <= k then
      Err(SampleLargerThanPopulation)
    else
      var adj := seq(n, i requires 0 <= i < n => [i] + draws[i]);
      assert forall i :: 0 <= i < n ==> Distinct(adj[i]) by {
        forall i | 0 <= i < n ensures Distinct(adj[i]) {
          ConsDistinct(i, draws[i]);
        }
      }
      Ok(adj)
  }

  // ---------------------------------------------------------------- SAT_like

  /** The samples a `SAT_like` call can draw: `count` clauses of `k + 1` distinct variables. */
  predicate ClauseDraws(n: nat, k: nat, draws: seq<seq<nat>>) {
    forall c :: 0 <= c < |draws| ==> IsSample(draws[c], Variables(n), k + 1)
  }

  /** `count` clauses, each of `k + 1` distinct variables drawn without replacement;
      `count` stands for `int(4.27 * N)`, `draws[c]` is the sample drawn for clause `c`. */
  function SatLike(n: nat, k: nat, count: nat, draws: seq<seq<nat>>): (r: Result<Adjacency>)
    requires |draws| == count
    requires k < n ==> ClauseDraws(n, k, draws)
    ensures r.Err? <==> count > 0 && n <= k
    ensures r.Err? ==> r.error == SampleLargerThanPopulation
    ensures r.Ok? ==> |r.value| == count && WellFormed(r.value, n)
    ensures r.Ok? ==> forall c :: 0 <= c < count ==> |r.value[c]| == k + 1
  {
    if count > 0 && n <= k then
      Err(SampleLargerThanPopulation)
    else
      Ok(seq(count, c requires 0 <= c < count => draws[c]))
  }
}
