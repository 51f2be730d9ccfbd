/** The Schulze voting method over ballots that each list every candidate once, most
    preferred first. Candidates are identified by their position in the first ballot, so
    the pairwise dictionaries keyed by candidate pairs become square grids. */
module Schulze {
  import opened Indices
  import opened Outcomes

  /** A grid over candidate pairs: `g[i][j]` is the entry for the pair (i, j). */
  type Grid = seq<seq<nat>>

  predicate IsGrid(g: Grid, c: nat) {
    |g| == c && forall i :: 0 <= i < c ==> |g[i]| == c
  }

  /** Two grids of the same size that agree everywhere are the same grid. */
  lemma GridExt(a: Grid, b: Grid, c: nat)
    requires IsGrid(a, c) && IsGrid(b, c)
    requires forall i, j :: 0 <= i < c && 0 <= j < c ==> a[i][j] == b[i][j]
    ensures a == b
  {
    forall i | 0 <= i < c ensures a[i] == b[i] {
    }
  }

  function Min(x: nat, y: nat): nat {
    if x < y then x else y
  }

  function Max(x: nat, y: nat): nat {
    if x < y then y else x
  }

  // ---------------------------------------------------------------- ballots

  /** Every ballot lists every candidate `cands` names. */
  predicate Complete<T(==)>(ballots: seq<seq<T>>, cands: seq<T>) {
    forall t, i :: 0 <= t < |ballots| && 0 <= i < |cands| ==> cands[i] in ballots[t]
  }

  /** What `schulze` demands of its input: the first ballot names each candidate once and
      every ballot lists all of them. No ballots at all is allowed, and fails. */
  predicate ProperBallots<T(==)>(ballots: seq<seq<T>>) {
    |ballots| > 0 ==> Distinct(ballots[0]) && Complete(ballots, ballots[0])
  }

  predicate Lists<T(==)>(ballots: seq<seq<T>>, x: T) {
    forall t :: 0 <= t < |ballots| ==> x in ballots[t]
  }

  /** 1 when ballot `b` ranks `x` above `y`: `b.index(x) < b.index(y)`. */
  function Prefers<T(==)>(b: seq<T>, x: T, y: T): nat
    requires x in b && y in b
  {
    if IndexOf(b, x) < IndexOf(b, y) then 1 else 0
  }

  /** The number of ballots that rank `x` above `y`. */
  function Support<T(==)>(ballots: seq<seq<T>>, x: T, y: T): nat
    requires Lists(ballots, x) && Lists(ballots, y)
  {
    if ballots == [] then 0
    else Support(ballots[..|ballots| - 1], x, y) + Prefers(ballots[|ballots| - 1], x, y)
  }

  /** No ballot ranks a candidate above itself, and of two different candidates every
      ballot ranks exactly one above the other, so the two counts add up to the number of
      ballots. */
  lemma {:induction false} SupportFacts<T>(ballots: seq<seq<T>>, x: T, y: T)
    requires Lists(ballots, x) && Lists(ballots, y)
    ensures Support(ballots, x, x) == 0
    ensures x != y ==> Support(ballots, x, y) + Support(ballots, y, x) == |ballots|
    ensures Support(ballots, x, y) <= |ballots|
  {
    if ballots != [] {
      var b := ballots[|ballots| - 1];
      SupportFacts(ballots[..|ballots| - 1], x, y);
      if x != y {
        assert IndexOf(b, x) != IndexOf(b, y);
      }
    }
  }

  /** Counting over two batches of ballots adds up. */
  lemma {:induction false} SupportAppend<T>(a: seq<seq<T>>, b: seq<seq<T>>, x: T, y: T)
    requires Lists(a, x) && Lists(a, y) && Lists(b, x) && Lists(b, y)
    ensures Lists(a + b, x) && Lists(a + b, y)
    ensures Support(a + b, x, y) == Support(a, x, y) + Support(b, x, y)
  {
    if b != [] {
      var front := b[..|b| - 1];
      assert (a + b)[..|a + b| - 1] == a + front;
      SupportAppend(a, front, x, y);
    } else {
      assert a + b == a;
    }
  }

  /** On a ballot that lists `x` at `s` and `y` at `t` and no candidate twice, the ballot
      prefers `x` to `y` exactly when `s < t`. */
  lemma PrefersByPosition<T>(b: seq<T>, x: T, y: T, s: nat, t: nat)
    requires Distinct(b) && s < |b| && t < |b| && b[s] == x && b[t] == y
    ensures Prefers(b, x, y) == if s < t then 1 else 0
  {
    assert IndexOf(b, x) == s && IndexOf(b, y) == t;
  }

  /** The pairwise preference grid `d`: `d[i][j]` counts the ballots ranking candidate `i`
      above candidate `j`. */
  function Preferences<T(==)>(ballots: seq<seq<T>>, cands: seq<T>): (d: Grid)
    requires Complete(ballots, cands)
    ensures IsGrid(d, |cands|)
  {
    seq(|cands|, i requires 0 <= i < |cands| =>
      seq(|cands|, j requires 0 <= j < |cands| => Support(ballots, cands[i], cands[j])))
  }

  /** The support counted over the first `t` ballots. */
  function Tally<T(==)>(ballots: seq<seq<T>>, t: nat, x: T, y: T): nat
    requires t <= |ballots| && Lists(ballots, x) && Lists(ballots, y)
  {
    Support(ballots[..t], x, y)
  }

  lemma TallyStep<T>(ballots: seq<seq<T>>, t: nat, x: T, y: T)
    requires t < |ballots| && Lists(ballots, x) && Lists(ballots, y)
    ensures Tally(ballots, t + 1, x, y) == Tally(ballots, t, x, y) + Prefers(ballots[t], x, y)
  {
    assert ballots[..t + 1][..t] == ballots[..t];
  }

  /** Builds `d`, ballot by ballot. */
  method PairwisePreferences<T(==)>(ballots: seq<seq<T>>, cands: seq<T>) returns (d: Grid)
    requires Complete(ballots, cands)
    ensures d == Preferences(ballots, cands)
  {
    var c := |cands|;
    d := seq(c, _ => seq(c, _ => 0));
    for t := 0 to |ballots|
      invariant IsGrid(d, c)
      invariant forall i, j :: 0 <= i < c && 0 <= j < c ==> d[i][j] == Tally(ballots, t, cands[i], cands[j])
    {
      d := CountBallot(d, ballots[t], cands);
      forall i, j | 0 <= i < c && 0 <= j < c
        ensures d[i][j] == Tally(ballots, t + 1, cands[i], cands[j])
      {
        TallyStep(ballots, t, cands[i], cands[j]);
      }
    }
    assert ballots[..|ballots|] == ballots;
    GridExt(d, Preferences(ballots, cands), c);
  }

  /** One ballot's pass over the pairs: one more for every pair `(x, y)` it ranks in that
      order. */
  method CountBallot<T(==)>(d: Grid, b: seq<T>, cands: seq<T>) returns (e: Grid)
    requires IsGrid(d, |cands|) && forall i :: 0 <= i < |cands| ==> cands[i] in b
    ensures IsGrid(e, |cands|)
    ensures forall i, j :: 0 <= i < |cands| && 0 <= j < |cands| ==>
      e[i][j] == d[i][j] + Prefers(b, cands[i], cands[j])
  {
    var c := |cands|;
    e := d;
    for i := 0 to c
      invariant IsGrid(e, c)
      invariant forall i', j :: 0 <= i' < i && 0 <= j < c ==> e[i'][j] == d[i'][j] + Prefers(b, cands[i'], cands[j])
      invariant forall i' :: i <= i' < c ==> e[i'] == d[i']
    {
      var row := CountRow(e[i], b, cands, i);
      e := e[i := row];
    }
  }

  /** The inner loop of one ballot's pass: row `i` gains one in every column `j` whose
      candidate the ballot ranks below candidate `i`. */
  method CountRow<T(==)>(row: seq<nat>, b: seq<T>, cands: seq<T>, i: nat) returns (r: seq<nat>)
    requires |row| == |cands| && i < |cands| && forall k :: 0 <= k < |cands| ==> cands[k] in b
    ensures |r| == |row|
    ensures forall j :: 0 <= j < |row| ==> r[j] == row[j] + Prefers(b, cands[i], cands[j])
  {
    r := row;
    for j := 0 to |row|
      invariant |r| == |row|
      invariant forall j' :: 0 <= j' < j ==> r[j'] == row[j'] + Prefers(b, cands[i], cands[j'])
      invariant forall j' :: j <= j' < |row| ==> r[j'] == row[j']
    {
      if IndexOf(b, cands[i]) < IndexOf(b, cands[j]) {
        r := r[j := r[j] + 1];
      }
    }
  }

  // ---------------------------------------------------------------- path strengths

  /** The starting strengths `p`: the margin-winning count `d[i][j]` when more ballots
      rank `i` above `j` than the reverse, else 0. A candidate has no entry against itself;
      the grid holds 0 there and nothing reads it. */
  function Initial(d: Grid, c: nat): (p: Grid)
    requires IsGrid(d, c)
    ensures IsGrid(p, c)
  {
    seq(c, i requires 0 <= i < c =>
      seq(c, j requires 0 <= j < c => if i != j && d[i][j] > d[j][i] then d[i][j] else 0))
  }

  /** Fills `p` pair by pair, in the order the candidates are listed. */
  method InitialStrengths(d: Grid, c: nat) returns (p: Grid)
    requires IsGrid(d, c)
    ensures p == Initial(d, c)
  {
    p := [];
    for i := 0 to c
      invariant p == Initial(d, c)[..i]
    {
      var row := [];
      for j := 0 to c
        invariant row == Initial(d, c)[i][..j]
      {
        if i != j && d[i][j] > d[j][i] {
          row := row + [d[i][j]];
        } else {
          row := row + [0];
        }
      }
      assert row == Initial(d, c)[i];
      assert Initial(d, c)[..i + 1] == Initial(d, c)[..i] + [Initial(d, c)[i]];
      p := p + [row];
    }
  }

  /** Of two different candidates at most one starts with a positive strength over the
      other, every start is at most the pairwise count it comes from, and a positive one
      is a strict majority of the two counts. */
  lemma InitialFacts(d: Grid, c: nat)
    requires IsGrid(d, c)
    ensures var p := Initial(d, c);
      forall i, j :: 0 <= i < c && 0 <= j < c ==>
        p[i][j] <= d[i][j] && !(p[i][j] > 0 && p[j][i] > 0) &&
        (p[i][j] > 0 ==> d[i][j] > d[j][i])
  {
  }

  /** One round of the triple loop, through intermediate candidate `m`: every pair
      `(j, k)` of candidates other than `m` keeps the stronger of its own strength and the
      path `j -> m -> k`. */
  function Relax(p: Grid, c: nat, m: nat): (q: Grid)
    requires IsGrid(p, c) && m < c
    ensures IsGrid(q, c)
  {
    seq(c, j requires 0 <= j < c =>
      seq(c, k requires 0 <= k < c =>
        if j != m && k != m && j != k then Max(p[j][k], Min(p[j][m], p[m][k])) else p[j][k]))
  }

  /** The strengths after the rounds through candidates `0 .. m - 1`. */
  function Strongest(p: Grid, c: nat, m: nat): (q: Grid)
    requires IsGrid(p, c) && m <= c
    ensures IsGrid(q, c)
  {
    if m == 0 then p else Relax(Strongest(p, c, m - 1), c, m - 1)
  }

  /** The triple loop, updating `p` in place, one round per intermediate candidate. */
  method WidestPaths(p0: Grid, c: nat) returns (p: Grid)
    requires IsGrid(p0, c)
    ensures p == Strongest(p0, c, c)
  {
    p := p0;
    for i := 0 to c
      invariant p == Strongest(p0, c, i)
    {
      p := RelaxRound(p, c, i);
    }
  }

  /** The middle and inner loops for intermediate `i`. The entries `p[j][i]` and `p[i][k]`
      they read are never written in this round, so updating in place computes `Relax`. */
  method RelaxRound(p0: Grid, c: nat, i: nat) returns (p: Grid)
    requires IsGrid(p0, c) && i < c
    ensures p == Relax(p0, c, i)
  {
    p := p0;
    for j := 0 to c
      invariant IsGrid(p, c)
      invariant forall j' :: 0 <= j' < j ==> p[j'] == Relax(p0, c, i)[j']
      invariant forall j' :: j <= j' < c ==> p[j'] == p0[j']
    {
      if i != j {
        assert p[i] == p0[i] by {
          if i < j {
            assert p[i] == Relax(p0, c, i)[i];
          }
        }
        p := RelaxRow(p, c, i, j);
        assert p[j] == Relax(p0, c, i)[j];
      }
    }
  }

  /** The inner loop: row `j` takes the path through `i` wherever it is stronger. */
  method RelaxRow(p0: Grid, c: nat, i: nat, j: nat) returns (p: Grid)
    requires IsGrid(p0, c) && i < c && j < c && i != j
    ensures p == p0[j := Relax(p0, c, i)[j]]
  {
    p := p0;
    for k := 0 to c
      invariant IsGrid(p, c)
      invariant forall j' :: 0 <= j' < c && j' != j ==> p[j'] == p0[j']
      invariant forall k' :: 0 <= k' < k ==> p[j][k'] == Relax(p0, c, i)[j][k']
      invariant forall k' :: k <= k' < c ==> p[j][k'] == p0[j][k']
    {
      if i != k && j != k {
        var widest: nat := Max(p[j][k], Min(p[j][i], p[i][k]));
        var row: seq<nat> := p[j][k := widest];
        p := p[j := row];
      }
    }
    assert p[j] == Relax(p0, c, i)[j];
  }

  /** `p` already holds every path through candidates below `m`: no pair `(j, k)` is
      weaker than the path `j -> i -> k` for such an `i`. */
  predicate ClosedThrough(p: Grid, c: nat, m: nat)
    requires IsGrid(p, c) && m <= c
  {
    forall i :: 0 <= i < m ==> ClosedVia(p, c, i)
  }

  /** No pair `(j, k)` is weaker than the path `j -> i -> k`. */
  predicate ClosedVia(p: Grid, c: nat, i: nat)
    requires IsGrid(p, c) && i < c
  {
    forall j, k :: 0 <= j < c && 0 <= k < c && i != j && i != k && j != k ==>
      p[j][k] >= Min(p[j][i], p[i][k])
  }

  /** A round through `m` adds `m` to the candidates paths may pass through, without
      losing the closure already reached. */
  lemma RelaxClosed(p: Grid, q: Grid, c: nat, m: nat)
    requires IsGrid(p, c) && m < c && ClosedThrough(p, c, m) && q == Relax(p, c, m)
    ensures ClosedThrough(q, c, m + 1)
  {
    forall i | 0 <= i < m + 1 ensures ClosedVia(q, c, i) {
      RelaxVia(p, c, m, i);
    }
  }

  /** After the round through `m`, paths through `m` are closed, and so is every path
      through an `i` whose paths were already closed. */
  lemma RelaxVia(p: Grid, c: nat, m: nat, i: nat)
    requires IsGrid(p, c) && m < c && i <= m
    requires i < m ==> ClosedVia(p, c, i)
    ensures ClosedVia(Relax(p, c, m), c, i)
  {
    var q := Relax(p, c, m);
    forall j, k | 0 <= j < c && 0 <= k < c && i != j && i != k && j != k
      ensures q[j][k] >= Min(q[j][i], q[i][k])
    {
      if i < m {
        assert p[j][k] >= Min(p[j][i], p[i][k]);
        if j != m && k != m {
          assert p[m][k] >= Min(p[m][i], p[i][k]);
          assert p[j][m] >= Min(p[j][i], p[i][m]);
        }
      }
    }
  }

  /** After the rounds through `0 .. m - 1`, the strengths are closed under paths
      through those candidates. */
  lemma {:induction false} StrongestClosed(p: Grid, c: nat, m: nat)
    requires IsGrid(p, c) && m <= c
    ensures ClosedThrough(Strongest(p, c, m), c, m)
  {
    if m > 0 {
      var n := m - 1;
      StrongestClosed(p, c, n);
      RelaxClosed(Strongest(p, c, n), Strongest(p, c, m), c, n);
    }
  }

  /** Every entry of `a` is at least the same entry of `b`. */
  predicate AtLeast(a: Grid, b: Grid, c: nat)
    requires IsGrid(a, c) && IsGrid(b, c)
  {
    forall j, k :: 0 <= j < c && 0 <= k < c ==> a[j][k] >= b[j][k]
  }

  /** No entry exceeds `bound`. */
  predicate Bounded(a: Grid, c: nat, bound: nat)
    requires IsGrid(a, c)
  {
    forall j, k :: 0 <= j < c && 0 <= k < c ==> a[j][k] <= bound
  }

  lemma AtLeastTransitive(a: Grid, b: Grid, p: Grid, c: nat)
    requires IsGrid(a, c) && IsGrid(b, c) && IsGrid(p, c)
    requires AtLeast(a, b, c) && AtLeast(b, p, c)
    ensures AtLeast(a, p, c)
  {
  }

  /** One round never weakens an entry. */
  lemma RelaxAbove(s: Grid, r: Grid, c: nat, m: nat)
    requires IsGrid(s, c) && m < c && r == Relax(s, c, m)
    ensures AtLeast(r, s, c)
  {
  }

  /** One round keeps every entry within a bound the grid already keeps. */
  lemma RelaxBelow(s: Grid, r: Grid, c: nat, m: nat, bound: nat)
    requires IsGrid(s, c) && m < c && Bounded(s, c, bound) && r == Relax(s, c, m)
    ensures Bounded(r, c, bound)
  {
    forall j, k | 0 <= j < c && 0 <= k < c ensures r[j][k] <= bound {
      assert s[j][k] <= bound;
    }
  }

  /** The rounds never weaken an entry. */
  lemma {:induction false} StrongestAbove(p: Grid, c: nat, m: nat)
    requires IsGrid(p, c) && m <= c
    ensures AtLeast(Strongest(p, c, m), p, c)
  {
    if m > 0 {
      var n := m - 1;
      StrongestAbove(p, c, n);
      RelaxAbove(Strongest(p, c, n), Strongest(p, c, m), c, n);
      AtLeastTransitive(Strongest(p, c, m), Strongest(p, c, n), p, c);
    }
  }

  /** The rounds never raise an entry above a bound every starting entry keeps. */
  lemma {:induction false} StrongestBelow(p: Grid, c: nat, m: nat, bound: nat)
    requires IsGrid(p, c) && m <= c && Bounded(p, c, bound)
    ensures Bounded(Strongest(p, c, m), c, bound)
  {
    if m > 0 {
      var n := m - 1;
      StrongestBelow(p, c, n, bound);
      RelaxBelow(Strongest(p, c, n), Strongest(p, c, m), c, n, bound);
    }
  }

  /** The strengths are the least closed grid above the start: any grid `q` that is at
      least the start everywhere and is closed under paths through every candidate is at
      least the strengths everywhere. With `StrongestClosed`, this makes them the
      strongest-path (widest-path) strengths. */
  lemma {:induction false} StrongestLeast(p: Grid, q: Grid, c: nat, m: nat)
    requires IsGrid(p, c) && IsGrid(q, c) && m <= c
    requires AtLeast(q, p, c) && ClosedThrough(q, c, c)
    ensures AtLeast(q, Strongest(p, c, m), c)
  {
    if m > 0 {
      var n := m - 1;
      StrongestLeast(p, q, c, n);
      RelaxLeast(Strongest(p, c, n), Strongest(p, c, m), q, c, n);
    }
  }

  /** A grid closed through `m` that lies above `s` also lies above the round through `m`. */
  lemma RelaxLeast(s: Grid, r: Grid, q: Grid, c: nat, m: nat)
    requires IsGrid(s, c) && IsGrid(q, c) && m < c && r == Relax(s, c, m)
    requires AtLeast(q, s, c) && ClosedVia(q, c, m)
    ensures AtLeast(q, r, c)
  {
    forall j, k | 0 <= j < c && 0 <= k < c ensures r[j][k] <= q[j][k] {
      assert s[j][k] <= q[j][k];
      if j != m && k != m && j != k {
        assert s[j][m] <= q[j][m] && s[m][k] <= q[m][k];
        assert q[j][k] >= Min(q[j][m], q[m][k]);
      }
    }
  }

  // ---------------------------------------------------------------- ranks

  /** Candidate `a` wins its strongest-path matchup against `b`. */
  predicate Beats(p: Grid, c: nat, a: nat, b: nat)
    requires IsGrid(p, c) && a < c && b < c
  {
    p[a][b] > p[b][a]
  }

  /** The candidates among the first `upto` that beat `i`. */
  function BeatenBy(p: Grid, c: nat, i: nat, upto: nat): set<nat>
    requires IsGrid(p, c) && i < c && upto <= c
  {
    set j | 0 <= j < upto && j != i && p[i][j] < p[j][i]
  }

  /** `ranks[i]`: one more than the number of matchups `i` loses. */
  function Rank(p: Grid, c: nat, i: nat): nat
    requires IsGrid(p, c) && i < c
  {
    1 + |BeatenBy(p, c, i, c)|
  }

  function RankList(p: Grid, c: nat): (r: seq<nat>)
    requires IsGrid(p, c)
    ensures |r| == c
  {
    seq(c, i requires 0 <= i < c => Rank(p, c, i))
  }

  lemma BeatenByStep(p: Grid, c: nat, i: nat, j: nat)
    requires IsGrid(p, c) && i < c && j < c
    ensures j !in BeatenBy(p, c, i, j)
    ensures BeatenBy(p, c, i, j + 1) ==
      BeatenBy(p, c, i, j) + if i != j && p[i][j] < p[j][i] then {j} else {}
  {
  }

  /** Counts every candidate's lost matchups. */
  method CountRanks(p: Grid, c: nat) returns (ranks: seq<nat>)
    requires IsGrid(p, c)
    ensures ranks == RankList(p, c)
  {
    ranks := [];
    for i := 0 to c
      invariant |ranks| == i
      invariant forall k :: 0 <= k < i ==> ranks[k] == Rank(p, c, k)
    {
      var rank := CountLosses(p, c, i);
      ranks := ranks + [rank];
    }
  }

  /** The inner loop: one plus the number of candidates that beat `i`. */
  method CountLosses(p: Grid, c: nat, i: nat) returns (rank: nat)
    requires IsGrid(p, c) && i < c
    ensures rank == Rank(p, c, i)
  {
    rank := 1;
    for j := 0 to c
      invariant rank == 1 + |BeatenBy(p, c, i, j)|
    {
      BeatenByStep(p, c, i, j);
      if i != j && p[i][j] < p[j][i] {
        rank := rank + 1;
      }
    }
  }

  lemma {:induction false} BeatenByBound(p: Grid, c: nat, i: nat, upto: nat)
    requires IsGrid(p, c) && i < c && upto <= c
    ensures |BeatenBy(p, c, i, upto)| <= if i < upto then upto - 1 else upto
  {
    if upto > 0 {
      var upto' := upto - 1;
      BeatenByBound(p, c, i, upto');
      BeatenByStep(p, c, i, upto');
    }
  }

  /** Every rank lies between 1 and the number of candidates, and a candidate has rank 1
      exactly when it loses no matchup. */
  lemma RankBounds(p: Grid, c: nat, i: nat)
    requires IsGrid(p, c) && i < c
    ensures 1 <= Rank(p, c, i) <= c
    ensures Rank(p, c, i) == 1 <==> forall j :: 0 <= j < c && j != i ==> p[i][j] >= p[j][i]
  {
    BeatenByBound(p, c, i, c);
    if Rank(p, c, i) == 1 {
      forall j | 0 <= j < c && j != i ensures p[i][j] >= p[j][i] {
        assert j !in BeatenBy(p, c, i, c);
      }
    } else {
      var j :| j in BeatenBy(p, c, i, c);
    }
  }

  /** Over strengths closed under all paths, winning matchups is transitive. */
  lemma BeatsTransitive(p: Grid, c: nat, a: nat, b: nat, d: nat)
    requires IsGrid(p, c) && a < c && b < c && d < c && ClosedThrough(p, c, c)
    requires Beats(p, c, a, b) && Beats(p, c, b, d)
    ensures Beats(p, c, a, d)
  {
    if a != d {
      assert ClosedVia(p, c, a) && ClosedVia(p, c, b) && ClosedVia(p, c, d);
      assert p[a][d] >= Min(p[a][b], p[b][d]);
      assert p[d][b] >= Min(p[d][a], p[a][b]);
      assert p[b][a] >= Min(p[b][d], p[d][a]);
    }
  }

  /** Over strengths closed under all paths, the winner of a matchup gets a strictly
      better (smaller) rank than the loser: everyone who beats the winner also beats the
      loser, and so does the winner. */
  lemma BeatsRankLower(p: Grid, c: nat, a: nat, b: nat)
    requires IsGrid(p, c) && a < c && b < c && ClosedThrough(p, c, c)
    requires Beats(p, c, a, b)
    ensures Rank(p, c, a) < Rank(p, c, b)
  {
    var la, lb := BeatenBy(p, c, a, c), BeatenBy(p, c, b, c);
    forall k | k in la ensures k in lb {
      BeatsTransitive(p, c, k, a, b);
    }
    assert a in lb && a !in la;
    SubsetSize(la + {a}, lb);
  }

  // ---------------------------------------------------------------- ordering by rank

  /** The members of `order` whose rank is `r`, in their order in `order`. */
  function Level(order: seq<nat>, ranks: seq<nat>, r: nat): (l: seq<nat>)
    requires Below(order, |ranks|)
    ensures forall t :: 0 <= t < |l| ==> l[t] < |ranks| && ranks[l[t]] == r
  {
    if order == [] then []
    else
      var last := order[|order| - 1];
      Level(order[..|order| - 1], ranks, r) + if ranks[last] == r then [last] else []
  }

  /** `sorted(order, key=ranks.get)` when every rank lies in 1 .. `top`. Python's sort is
      stable, so it lists the members of rank 1 first, then those of rank 2, and so on,
      each group in its order in `order`. */
  function SortByRank(order: seq<nat>, ranks: seq<nat>, top: nat): (s: seq<nat>)
    requires Below(order, |ranks|)
    ensures forall t :: 0 <= t < |s| ==> s[t] < |ranks| && 1 <= ranks[s[t]] <= top
  {
    if top == 0 then [] else SortByRank(order, ranks, top - 1) + Level(order, ranks, top)
  }

  /** Exactly one candidate in `order`, the one at position `t`, holds rank `r`: the
      level is that candidate alone. */
  lemma {:induction false} LevelUnique(order: seq<nat>, ranks: seq<nat>, r: nat, t: nat)
    requires Below(order, |ranks|) && t < |order| && ranks[order[t]] == r
    requires forall s :: 0 <= s < |order| && s != t ==> ranks[order[s]] != r
    ensures Level(order, ranks, r) == [order[t]]
  {
    var front := order[..|order| - 1];
    if t == |order| - 1 {
      LevelEmpty(front, ranks, r);
    } else {
      LevelUnique(front, ranks, r, t);
    }
  }

  lemma {:induction false} LevelAppend(a: seq<nat>, b: seq<nat>, ranks: seq<nat>, r: nat)
    requires Below(a, |ranks|) && Below(b, |ranks|)
    ensures Below(a + b, |ranks|)
    ensures Level(a + b, ranks, r) == Level(a, ranks, r) + Level(b, ranks, r)
  {
    if b != [] {
      var front := b[..|b| - 1];
      assert (a + b)[..|a + b| - 1] == a + front;
      LevelAppend(a, front, ranks, r);
    } else {
      assert a + b == a;
    }
  }

  lemma {:induction false} LevelCount(order: seq<nat>, ranks: seq<nat>, r: nat, x: nat)
    requires Below(order, |ranks|)
    ensures multiset(Level(order, ranks, r))[x] ==
      if x < |ranks| && ranks[x] == r then multiset(order)[x] else 0
  {
    if order != [] {
      var front := order[..|order| - 1];
      LevelCount(front, ranks, r, x);
      assert order == front + [order[|order| - 1]];
    }
  }

  lemma {:induction false} LevelOfLevel(order: seq<nat>, ranks: seq<nat>, r: nat, r': nat)
    requires Below(order, |ranks|)
    ensures Level(Level(order, ranks, r'), ranks, r) == if r == r' then Level(order, ranks, r) else []
  {
    if order != [] {
      var front := order[..|order| - 1];
      var last := order[|order| - 1];
      LevelOfLevel(front, ranks, r, r');
      var tail := if ranks[last] == r' then [last] else [];
      LevelAppend(Level(front, ranks, r'), tail, ranks, r);
      if ranks[last] == r' {
        assert [last][..0] == [];
      }
    }
  }

  lemma {:induction false} LevelEmpty(order: seq<nat>, ranks: seq<nat>, r: nat)
    requires Below(order, |ranks|)
    requires forall t :: 0 <= t < |order| ==> ranks[order[t]] != r
    ensures Level(order, ranks, r) == []
  {
    if order != [] {
      LevelEmpty(order[..|order| - 1], ranks, r);
    }
  }

  lemma SortSnoc(order: seq<nat>, ranks: seq<nat>, top': nat, top: nat)
    requires Below(order, |ranks|) && top == top' + 1
    ensures SortByRank(order, ranks, top) == SortByRank(order, ranks, top') + Level(order, ranks, top)
  {
  }

  lemma {:induction false} SortCount(order: seq<nat>, ranks: seq<nat>, top: nat, x: nat)
    requires Below(order, |ranks|)
    ensures multiset(SortByRank(order, ranks, top))[x] ==
      if x < |ranks| && 1 <= ranks[x] <= top then multiset(order)[x] else 0
  {
    if top > 0 {
      var top' := top - 1;
      var front, level := SortByRank(order, ranks, top'), Level(order, ranks, top);
      assert multiset(front + level) == multiset(front) + multiset(level);
      SortCount(order, ranks, top', x);
      LevelCount(order, ranks, top, x);
    }
  }

  lemma {:induction false} SortOrdered(order: seq<nat>, ranks: seq<nat>, top: nat)
    requires Below(order, |ranks|)
    ensures forall a, b :: 0 <= a < b < |SortByRank(order, ranks, top)| ==>
      ranks[SortByRank(order, ranks, top)[a]] <= ranks[SortByRank(order, ranks, top)[b]]
  {
    if top > 0 {
      SortOrdered(order, ranks, top - 1);
      var front := SortByRank(order, ranks, top - 1);
      var s := SortByRank(order, ranks, top);
      var level := Level(order, ranks, top);
      assert s == front + level;
      forall a, b | 0 <= a < b < |s| ensures ranks[s[a]] <= ranks[s[b]] {
        if b < |front| {
          assert s[a] == front[a] && s[b] == front[b];
          assert ranks[front[a]] <= ranks[front[b]];
        } else if a < |front| {
          assert s[a] == front[a] && s[b] == level[b - |front|];
          assert ranks[front[a]] <= top - 1;
          assert ranks[level[b - |front|]] == top;
        } else {
          assert s[a] == level[a - |front|] && s[b] == level[b - |front|];
          assert ranks[level[a - |front|]] == top;
          assert ranks[level[b - |front|]] == top;
        }
      }
    }
  }

  lemma {:induction false} SortLevels(order: seq<nat>, ranks: seq<nat>, top: nat, r: nat)
    requires Below(order, |ranks|)
    ensures Level(SortByRank(order, ranks, top), ranks, r) ==
      if 1 <= r <= top then Level(order, ranks, r) else []
  {
    if top > 0 {
      var top' := top - 1;
      SortSnoc(order, ranks, top', top);
      SortLevels(order, ranks, top', r);
      LevelAppend(SortByRank(order, ranks, top'), Level(order, ranks, top), ranks, r);
      LevelOfLevel(order, ranks, r, top);
      if r == top {
        assert [] + Level(order, ranks, r) == Level(order, ranks, r);
      }
    } else {
      LevelEmpty([], ranks, r);
    }
  }

  /** Sorting by rank is a stable sort: when every rank lies in 1 .. `top`, the result is
      a permutation of `order`, ranks never decrease along it, and the members of every
      rank keep their order in `order`. */
  lemma StableSort(order: seq<nat>, ranks: seq<nat>, top: nat)
    requires Below(order, |ranks|)
    requires forall t :: 0 <= t < |order| ==> 1 <= ranks[order[t]] <= top
    ensures var s := SortByRank(order, ranks, top);
      && multiset(s) == multiset(order)
      && (forall a, b :: 0 <= a < b < |s| ==> ranks[s[a]] <= ranks[s[b]])
      && forall r :: Level(s, ranks, r) == Level(order, ranks, r)
  {
    SortPermutes(order, ranks, top);
    SortOrdered(order, ranks, top);
    forall r: nat ensures Level(SortByRank(order, ranks, top), ranks, r) == Level(order, ranks, r) {
      SortLevels(order, ranks, top, r);
      if !(1 <= r <= top) {
        LevelEmpty(order, ranks, r);
      }
    }
  }

  lemma SortPermutes(order: seq<nat>, ranks: seq<nat>, top: nat)
    requires Below(order, |ranks|)
    requires forall t :: 0 <= t < |order| ==> 1 <= ranks[order[t]] <= top
    ensures multiset(SortByRank(order, ranks, top)) == multiset(order)
  {
    var s := SortByRank(order, ranks, top);
    forall x ensures multiset(s)[x] == multiset(order)[x] {
      SortCount(order, ranks, top, x);
      if x in order {
        var t :| 0 <= t < |order| && order[t] == x;
      }
    }
  }

  // ---------------------------------------------------------------- the method

  /** The candidates at positions `pos` of `cands`. */
  function Names<T>(cands: seq<T>, pos: seq<nat>): (names: seq<T>)
    requires Below(pos, |cands|)
    ensures |names| == |pos|
    ensures forall t :: 0 <= t < |pos| ==> names[t] == cands[pos[t]]
  {
    seq(|pos|, t requires 0 <= t < |pos| => cands[pos[t]])
  }

  lemma NamesAppend<T>(cands: seq<T>, a: seq<nat>, b: seq<nat>)
    requires Below(a, |cands|) && Below(b, |cands|)
    ensures Below(a + b, |cands|)
    ensures Names(cands, a + b) == Names(cands, a) + Names(cands, b)
  {
  }

  /** Taking the entry at `t` out of a sequence takes one copy of it out of the multiset. */
  lemma NamesRemove<T>(cands: seq<T>, b: seq<nat>, t: nat)
    requires Below(b, |cands|) && t < |b|
    ensures Below(b[..t] + b[t + 1..], |cands|)
    ensures Names(cands, b[..t] + b[t + 1..]) == Names(cands, b)[..t] + Names(cands, b)[t + 1..]
  {
  }

  /** Naming two permutations of the same positions gives two permutations of the same
      candidates. */
  lemma {:induction false} NamesPermute<T>(cands: seq<T>, a: seq<nat>, b: seq<nat>)
    requires Below(a, |cands|) && Below(b, |cands|) && multiset(a) == multiset(b)
    ensures multiset(Names(cands, a)) == multiset(Names(cands, b))
    decreases |a|
  {
    if a == [] {
      assert |b| == |multiset(b)| == 0;
    } else {
      var x := a[|a| - 1];
      assert x in multiset(b);
      var t :| 0 <= t < |b| && b[t] == x;
      var front, rest := a[..|a| - 1], b[..t] + b[t + 1..];
      assert a[..|a| - 1] + a[|a|..] == front;
      MultisetRemove(a, |a| - 1);
      MultisetRemove(b, t);
      NamesRemove(cands, a, |a| - 1);
      NamesRemove(cands, b, t);
      NamesPermute(cands, front, rest);
      var na, nb := Names(cands, a), Names(cands, b);
      MultisetRemove(na, |a| - 1);
      MultisetRemove(nb, t);
      assert multiset(front) == multiset(rest);
      assert na[|a| - 1] == nb[t];
    }
  }

  /** The strongest-path strengths of the candidates of `ballots[0]`. */
  function Strengths<T(==)>(ballots: seq<seq<T>>): (p: Grid)
    requires ProperBallots(ballots) && |ballots| > 0
    ensures IsGrid(p, |ballots[0]|)
  {
    var c := |ballots[0]|;
    Strongest(Initial(Preferences(ballots, ballots[0]), c), c, c)
  }

  /** The positions of the candidates, best rank first. */
  function Order<T(==)>(ballots: seq<seq<T>>): seq<nat>
    requires ProperBallots(ballots) && |ballots| > 0
  {
    RankOrder(Strengths(ballots), |ballots[0]|)
  }

  /** `schulze(ballots)`: the candidates ordered by rank, or the IndexError that reading
      `ballots[0]` raises when there are no ballots. */
  function Outcome<T(==)>(ballots: seq<seq<T>>): Result<seq<T>>
    requires ProperBallots(ballots)
  {
    if |ballots| == 0 then Err(IndexOutOfRange)
    else Ok(Names(ballots[0], Order(ballots)))
  }

  method Schulze<T(==)>(ballots: seq<seq<T>>) returns (r: Result<seq<T>>)
    requires ProperBallots(ballots)
    ensures r == Outcome(ballots)
  {
    if |ballots| == 0 {
      return Err(IndexOutOfRange);
    }
    var candidates := ballots[0];
    var c := |candidates|;
    var d := PairwisePreferences(ballots, candidates);
    var p := InitialStrengths(d, c);
    p := WidestPaths(p, c);
    var ranks := CountRanks(p, c);
    return Ok(Names(candidates, SortByRank(Range(0, c), ranks, c)));
  }

  /** The positions of the candidates sorted by the ranks the strengths `p` give. */
  function RankOrder(p: Grid, c: nat): (order: seq<nat>)
    requires IsGrid(p, c)
    ensures Below(order, c)
  {
    SortByRank(Range(0, c), RankList(p, c), c)
  }

  /** Over strengths closed under all paths, the rank order lists every candidate once,
      by non-decreasing rank, ties in candidate order, and every matchup winner before
      its loser. */
  lemma RankOrderFacts(p: Grid, c: nat)
    requires IsGrid(p, c) && ClosedThrough(p, c, c)
    ensures var order, ranks := RankOrder(p, c), RankList(p, c);
      && multiset(order) == multiset(Range(0, c))
      && (forall s, t :: 0 <= s < t < |order| ==> ranks[order[s]] <= ranks[order[t]])
      && (forall r :: Level(order, ranks, r) == Level(Range(0, c), ranks, r))
      && (forall s, t :: 0 <= s < |order| && 0 <= t < |order| && Beats(p, c, order[s], order[t]) ==> s < t)
  {
    RankOrderSorted(p, c);
    RankOrderBeats(p, c);
  }

  /** The rank order is a stable sort of the candidates by rank. */
  lemma RankOrderSorted(p: Grid, c: nat)
    requires IsGrid(p, c)
    ensures var order, ranks := RankOrder(p, c), RankList(p, c);
      && multiset(order) == multiset(Range(0, c))
      && (forall s, t :: 0 <= s < t < |order| ==> ranks[order[s]] <= ranks[order[t]])
      && (forall r :: Level(order, ranks, r) == Level(Range(0, c), ranks, r))
  {
    var ranks := RankList(p, c);
    forall t | 0 <= t < c ensures 1 <= ranks[t] <= c {
      RankBounds(p, c, t);
    }
    StableSort(Range(0, c), ranks, c);
  }

  /** In the rank order every matchup winner comes before its loser. */
  lemma RankOrderBeats(p: Grid, c: nat)
    requires IsGrid(p, c) && ClosedThrough(p, c, c)
    ensures var order := RankOrder(p, c);
      forall s, t :: 0 <= s < |order| && 0 <= t < |order| && Beats(p, c, order[s], order[t]) ==> s < t
  {
    var order, ranks := RankOrder(p, c), RankList(p, c);
    RankOrderSorted(p, c);
    forall s, t | 0 <= s < |order| && 0 <= t < |order| && Beats(p, c, order[s], order[t])
      ensures s < t
    {
      BeatsRankLower(p, c, order[s], order[t]);
      assert ranks[order[s]] < ranks[order[t]];
      LowerRankFirst(order, ranks, s, t);
    }
  }

  /** Along a sequence whose ranks never decrease, a strictly smaller rank comes first. */
  lemma LowerRankFirst(order: seq<nat>, ranks: seq<nat>, s: nat, t: nat)
    requires Below(order, |ranks|) && s < |order| && t < |order|
    requires forall a, b :: 0 <= a < b < |order| ==> ranks[order[a]] <= ranks[order[b]]
    requires ranks[order[s]] < ranks[order[t]]
    ensures s < t
  {
  }

  /** What `schulze` returns: a permutation of the candidates, ordered by non-decreasing
      rank, with the candidates of equal rank in their first-ballot order, and every
      winner of a strongest-path matchup listed before its loser. */
  lemma SchulzeRanking<T>(ballots: seq<seq<T>>)
    requires ProperBallots(ballots) && |ballots| > 0
    ensures var c := |ballots[0]|;
      var p := Strengths(ballots);
      var order, ranks := RankOrder(p, c), RankList(p, c);
      && Outcome(ballots) == Ok(Names(ballots[0], order))
      && multiset(Names(ballots[0], order)) == multiset(ballots[0])
      && (forall s, t :: 0 <= s < t < |order| ==> ranks[order[s]] <= ranks[order[t]])
      && (forall r :: Level(order, ranks, r) == Level(Range(0, c), ranks, r))
      && (forall s, t :: 0 <= s < |order| && 0 <= t < |order| && Beats(p, c, order[s], order[t]) ==> s < t)
  {
    var cands, c := ballots[0], |ballots[0]|;
    var p := Strengths(ballots);
    StrongestClosed(Initial(Preferences(ballots, cands), c), c, c);
    RankOrderFacts(p, c);
    NamesPermute(cands, RankOrder(p, c), Range(0, c));
    assert Names(cands, Range(0, c)) == cands;
  }

  /** The grid with no strength into `a` and `bound` everywhere else. */
  function Sink(c: nat, a: nat, bound: nat): (q: Grid)
    ensures IsGrid(q, c)
  {
    seq(c, j requires 0 <= j < c => seq(c, k requires 0 <= k < c => if k == a then 0 else bound))
  }

  lemma SinkClosed(c: nat, a: nat, bound: nat)
    ensures ClosedThrough(Sink(c, a, bound), c, c)
  {
  }

  /** When candidate `a` has the larger count against every rival, its strongest path to
      each rival is positive while no path into it has any strength, since every other
      candidate starts at 0 against it. */
  lemma CondorcetStrengths(d: Grid, c: nat, a: nat, bound: nat)
    requires IsGrid(d, c) && a < c
    requires forall j, k :: 0 <= j < c && 0 <= k < c ==> d[j][k] <= bound
    requires forall b :: 0 <= b < c && b != a ==> d[a][b] > d[b][a]
    ensures var p := Strongest(Initial(d, c), c, c);
      forall b :: 0 <= b < c && b != a ==> p[a][b] > 0 && p[b][a] == 0
  {
    var p0 := Initial(d, c);
    var p := Strongest(p0, c, c);
    var q := Sink(c, a, bound);
    InitialFacts(d, c);
    SinkClosed(c, a, bound);
    assert AtLeast(q, p0, c) by {
      forall j, k | 0 <= j < c && 0 <= k < c ensures p0[j][k] <= q[j][k] {
        if k == a && j != a {
          assert d[a][j] > d[j][a];
        }
      }
    }
    StrongestLeast(p0, q, c, c);
    StrongestAbove(p0, c, c);
    forall b | 0 <= b < c && b != a ensures p[a][b] > 0 && p[b][a] == 0 {
      assert p[b][a] <= q[b][a];
      assert p[a][b] >= p0[a][b];
    }
  }

  /** A candidate that wins every matchup alone has rank 1, and so comes first. */
  lemma BeatsAllFirst(p: Grid, c: nat, a: nat)
    requires IsGrid(p, c) && a < c && ClosedThrough(p, c, c)
    requires forall b :: 0 <= b < c && b != a ==> Beats(p, c, a, b)
    ensures |RankOrder(p, c)| >= 1 && RankOrder(p, c)[0] == a
  {
    BeatsAllRanks(p, c, a);
    RankOrderFacts(p, c);
    SoleBestFirst(RankOrder(p, c), RankList(p, c), c, a);
  }

  lemma BeatsAllRanks(p: Grid, c: nat, a: nat)
    requires IsGrid(p, c) && a < c
    requires forall b :: 0 <= b < c && b != a ==> Beats(p, c, a, b)
    ensures RankList(p, c)[a] == 1 && forall b :: 0 <= b < c && b != a ==> RankList(p, c)[b] >= 2
  {
    RankBounds(p, c, a);
    forall j | 0 <= j < c && j != a ensures p[a][j] >= p[j][a] {
      assert Beats(p, c, a, j);
    }
    forall b | 0 <= b < c && b != a ensures Rank(p, c, b) >= 2 {
      assert Beats(p, c, a, b);
      assert a in BeatenBy(p, c, b, c);
    }
  }

  /** In a permutation of the candidates sorted by rank, the only candidate of the best
      rank comes first. */
  lemma SoleBestFirst(order: seq<nat>, ranks: seq<nat>, c: nat, a: nat)
    requires a < c && |ranks| == c && Below(order, c)
    requires multiset(order) == multiset(Range(0, c))
    requires forall s, t :: 0 <= s < t < |order| ==> ranks[order[s]] <= ranks[order[t]]
    requires ranks[a] == 1 && forall b :: 0 <= b < c && b != a ==> ranks[b] >= 2
    ensures |order| >= 1 && order[0] == a
  {
    RangeMembers(0, c);
    assert a in Range(0, c);
    assert a in multiset(Range(0, c));
    assert a in multiset(order);
    var s :| 0 <= s < |order| && order[s] == a;
    if s > 0 {
      assert ranks[order[0]] <= ranks[order[s]];
    }
  }

  /** The Condorcet criterion: a candidate whom more ballots rank above each other
      candidate than the other way round heads the ranking. */
  lemma CondorcetWinner<T>(ballots: seq<seq<T>>, a: nat)
    requires ProperBallots(ballots) && |ballots| > 0 && a < |ballots[0]|
    requires forall b :: 0 <= b < |ballots[0]| && b != a ==>
      Preferences(ballots, ballots[0])[a][b] > Preferences(ballots, ballots[0])[b][a]
    ensures Outcome(ballots).Ok? && |Outcome(ballots).value| >= 1
    ensures Outcome(ballots).value[0] == ballots[0][a]
  {
    var cands, c := ballots[0], |ballots[0]|;
    var d := Preferences(ballots, cands);
    forall j, k | 0 <= j < c && 0 <= k < c ensures d[j][k] <= |ballots| {
      SupportFacts(ballots, cands[j], cands[k]);
    }
    CondorcetStrengths(d, c, a, |ballots|);
    var p := Strengths(ballots);
    assert p == Strongest(Initial(d, c), c, c);
    forall b | 0 <= b < c && b != a ensures Beats(p, c, a, b) {
    }
    StrongestClosed(Initial(d, c), c, c);
    BeatsAllFirst(p, c, a);
  }
}
