/** The worked example the ranking is checked against: 45 ballots over the candidates
    A to E, whose Schulze ranking is E, A, C, B, D. */
module SchulzeExample {
  import opened Indices
  import opened Outcomes
  import opened Schulze

  /** `[b] * n`: `n` copies of ballot `b`. */
  function Repeat(b: string, n: nat): (r: seq<string>)
    ensures |r| == n && forall t :: 0 <= t < n ==> r[t] == b
  {
    seq(n, _ => b)
  }

  lemma {:induction false} SupportRepeat(b: string, n: nat, x: char, y: char)
    requires x in b && y in b
    ensures Lists(Repeat(b, n), x) && Lists(Repeat(b, n), y)
    ensures Support(Repeat(b, n), x, y) == n * Prefers(b, x, y)
  {
    if n > 0 {
      var n' := n - 1;
      assert Repeat(b, n)[..n'] == Repeat(b, n');
      SupportRepeat(b, n', x, y);
    }
  }

  const G1: string := "ACBED"
  const G2: string := "ADECB"
  const G3: string := "BEDAC"
  const G4: string := "CABED"
  const G5: string := "CAEBD"
  const G6: string := "CBADE"
  const G7: string := "DCEBA"
  const G8: string := "EBADC"

  function Ballots(): seq<string> {
    Repeat(G1, 5) + Repeat(G2, 5) + Repeat(G3, 8) + Repeat(G4, 3) +
    Repeat(G5, 7) + Repeat(G6, 2) + Repeat(G7, 7) + Repeat(G8, 8)
  }

  /** Every ballot is one of the eight orders above. */
  lemma BallotKinds()
    ensures |Ballots()| == 45
    ensures forall t :: 0 <= t < 45 ==> Ballots()[t] in {G1, G2, G3, G4, G5, G6, G7, G8}
  {
  }

  lemma BallotsProper()
    ensures ProperBallots(Ballots())
    ensures Ballots()[0] == G1
  {
    BallotKinds();
  }

  const P1: seq<nat> := [0, 1, 2, 3, 4]
  const P2: seq<nat> := [0, 3, 4, 2, 1]
  const P3: seq<nat> := [3, 4, 0, 1, 2]
  const P4: seq<nat> := [1, 0, 2, 3, 4]
  const P5: seq<nat> := [1, 0, 3, 2, 4]
  const P6: seq<nat> := [2, 0, 1, 4, 3]
  const P7: seq<nat> := [4, 1, 3, 2, 0]
  const P8: seq<nat> := [2, 4, 1, 0, 3]

  function Before(pos: seq<nat>, i: nat, j: nat): nat
    requires i < |pos| && j < |pos|
  {
    if pos[i] < pos[j] then 1 else 0
  }

  /** A ballot that lists candidate `G1[i]` at `pos[i]` prefers `G1[i]` to `G1[j]`
      exactly when `pos[i] < pos[j]`. */
  lemma BallotPositions(b: string, pos: seq<nat>)
    requires Distinct(b) && |pos| == 5
    requires forall i :: 0 <= i < 5 ==> pos[i] < |b| && b[pos[i]] == G1[i]
    ensures forall i, j :: 0 <= i < 5 && 0 <= j < 5 ==>
      G1[i] in b && G1[j] in b && Prefers(b, G1[i], G1[j]) == Before(pos, i, j)
  {
    forall i, j | 0 <= i < 5 && 0 <= j < 5
      ensures G1[i] in b && G1[j] in b && Prefers(b, G1[i], G1[j]) == Before(pos, i, j)
    {
      PrefersByPosition(b, G1[i], G1[j], pos[i], pos[j]);
    }
  }

  /** The count for a pair is the sum over the eight groups of identical ballots. */
  lemma GroupedSupport(x: char, y: char)
    requires x in G1 && y in G1
    ensures Lists(Ballots(), x) && Lists(Ballots(), y)
    ensures Support(Ballots(), x, y) ==
      5 * Prefers(G1, x, y) + 5 * Prefers(G2, x, y) + 8 * Prefers(G3, x, y) + 3 * Prefers(G4, x, y) +
      7 * Prefers(G5, x, y) + 2 * Prefers(G6, x, y) + 7 * Prefers(G7, x, y) + 8 * Prefers(G8, x, y)
  {
    BallotsProper();
    var gs := [G1, G2, G3, G4, G5, G6, G7, G8];
    assert forall g :: 0 <= g < 8 ==> x in gs[g] && y in gs[g];
    SupportRepeat(G1, 5, x, y);
    SupportRepeat(G2, 5, x, y);
    SupportRepeat(G3, 8, x, y);
    SupportRepeat(G4, 3, x, y);
    SupportRepeat(G5, 7, x, y);
    SupportRepeat(G6, 2, x, y);
    SupportRepeat(G7, 7, x, y);
    SupportRepeat(G8, 8, x, y);
    var b1 := Repeat(G1, 5);
    var b2 := b1 + Repeat(G2, 5);
    var b3 := b2 + Repeat(G3, 8);
    var b4 := b3 + Repeat(G4, 3);
    var b5 := b4 + Repeat(G5, 7);
    var b6 := b5 + Repeat(G6, 2);
    var b7 := b6 + Repeat(G7, 7);
    SupportAppend(b1, Repeat(G2, 5), x, y);
    SupportAppend(b2, Repeat(G3, 8), x, y);
    SupportAppend(b3, Repeat(G4, 3), x, y);
    SupportAppend(b4, Repeat(G5, 7), x, y);
    SupportAppend(b5, Repeat(G6, 2), x, y);
    SupportAppend(b6, Repeat(G7, 7), x, y);
    SupportAppend(b7, Repeat(G8, 8), x, y);
  }

  const D: Grid := [
    [0, 26, 20, 22, 30],
    [19, 0, 29, 24, 17],
    [25, 16, 0, 18, 33],
    [23, 21, 27, 0, 31],
    [15, 28, 12, 14, 0]]

  /** The count for the pair `(G1[i], G1[j])`, group by group. */
  lemma Cell(i: nat, j: nat)
    requires i < 5 && j < 5
    ensures Lists(Ballots(), G1[i]) && Lists(Ballots(), G1[j])
    ensures Support(Ballots(), G1[i], G1[j]) ==
      5 * Before(P1, i, j) + 5 * Before(P2, i, j) + 8 * Before(P3, i, j) + 3 * Before(P4, i, j) +
      7 * Before(P5, i, j) + 2 * Before(P6, i, j) + 7 * Before(P7, i, j) + 8 * Before(P8, i, j)
  {
    GroupPrefers();
    GroupedSupport(G1[i], G1[j]);
  }

  /** The group sizes weighted by which groups rank `G1[i]` above `G1[j]` give `D[i][j]`. */
  lemma Weighted(i: nat, j: nat)
    requires i < 5 && j < 5
    ensures 5 * Before(P1, i, j) + 5 * Before(P2, i, j) + 8 * Before(P3, i, j) + 3 * Before(P4, i, j) +
      7 * Before(P5, i, j) + 2 * Before(P6, i, j) + 7 * Before(P7, i, j) + 8 * Before(P8, i, j) == D[i][j]
  {
    if i == 0 {
    } else if i == 1 {
    } else if i == 2 {
    } else if i == 3 {
    } else {
    }
  }

  lemma GroupPrefers()
    ensures forall i, j :: 0 <= i < 5 && 0 <= j < 5 ==>
      && Prefers(G1, G1[i], G1[j]) == Before(P1, i, j)
      && Prefers(G2, G1[i], G1[j]) == Before(P2, i, j)
      && Prefers(G3, G1[i], G1[j]) == Before(P3, i, j)
      && Prefers(G4, G1[i], G1[j]) == Before(P4, i, j)
      && Prefers(G5, G1[i], G1[j]) == Before(P5, i, j)
      && Prefers(G6, G1[i], G1[j]) == Before(P6, i, j)
      && Prefers(G7, G1[i], G1[j]) == Before(P7, i, j)
      && Prefers(G8, G1[i], G1[j]) == Before(P8, i, j)
  {
    Group1();
    Group2();
    Group3();
    Group4();
    Group5();
    Group6();
    Group7();
    Group8();
  }

  lemma Group1()
    ensures forall i, j :: 0 <= i < 5 && 0 <= j < 5 ==> G1[i] in G1 && G1[j] in G1 && Prefers(G1, G1[i], G1[j]) == Before(P1, i, j)
  {
    assert Distinct(G1);
    BallotPositions(G1, P1);
  }

  lemma Group2()
    ensures forall i, j :: 0 <= i < 5 && 0 <= j < 5 ==> G1[i] in G2 && G1[j] in G2 && Prefers(G2, G1[i], G1[j]) == Before(P2, i, j)
  {
    assert Distinct(G2);
    BallotPositions(G2, P2);
  }

  lemma Group3()
    ensures forall i, j :: 0 <= i < 5 && 0 <= j < 5 ==> G1[i] in G3 && G1[j] in G3 && Prefers(G3, G1[i], G1[j]) == Before(P3, i, j)
  {
    assert Distinct(G3);
    BallotPositions(G3, P3);
  }

  lemma Group4()
    ensures forall i, j :: 0 <= i < 5 && 0 <= j < 5 ==> G1[i] in G4 && G1[j] in G4 && Prefers(G4, G1[i], G1[j]) == Before(P4, i, j)
  {
    assert Distinct(G4);
    BallotPositions(G4, P4);
  }

  lemma Group5()
    ensures forall i, j :: 0 <= i < 5 && 0 <= j < 5 ==> G1[i] in G5 && G1[j] in G5 && Prefers(G5, G1[i], G1[j]) == Before(P5, i, j)
  {
    assert Distinct(G5);
    BallotPositions(G5, P5);
  }

  lemma Group6()
    ensures forall i, j :: 0 <= i < 5 && 0 <= j < 5 ==> G1[i] in G6 && G1[j] in G6 && Prefers(G6, G1[i], G1[j]) == Before(P6, i, j)
  {
    assert Distinct(G6);
    BallotPositions(G6, P6);
  }

  lemma Group7()
    ensures forall i, j :: 0 <= i < 5 && 0 <= j < 5 ==> G1[i] in G7 && G1[j] in G7 && Prefers(G7, G1[i], G1[j]) == Before(P7, i, j)
  {
    assert Distinct(G7);
    BallotPositions(G7, P7);
  }

  lemma Group8()
    ensures forall i, j :: 0 <= i < 5 && 0 <= j < 5 ==> G1[i] in G8 && G1[j] in G8 && Prefers(G8, G1[i], G1[j]) == Before(P8, i, j)
  {
    assert Distinct(G8);
    BallotPositions(G8, P8);
  }

  /** The pairwise counts, candidates in the order A, C, B, E, D of the first ballot. */
  lemma ExamplePreferences()
    ensures Complete(Ballots(), G1)
    ensures Preferences(Ballots(), G1) == D
  {
    BallotsProper();
    var d := Preferences(Ballots(), G1);
    forall i, j | 0 <= i < 5 && 0 <= j < 5 ensures d[i][j] == D[i][j] {
      Cell(i, j);
      Weighted(i, j);
    }
    GridExt(d, D, 5);
  }

  const S0: Grid := [
    [0, 26, 0, 0, 30],
    [0, 0, 29, 24, 0],
    [25, 0, 0, 0, 33],
    [23, 0, 27, 0, 31],
    [0, 28, 0, 0, 0]]

  const S1: Grid := [
    [0, 26, 0, 0, 30],
    [0, 0, 29, 24, 0],
    [25, 25, 0, 0, 33],
    [23, 23, 27, 0, 31],
    [0, 28, 0, 0, 0]]

  const S2: Grid := [
    [0, 26, 26, 24, 30],
    [0, 0, 29, 24, 0],
    [25, 25, 0, 24, 33],
    [23, 23, 27, 0, 31],
    [0, 28, 28, 24, 0]]

  const S3: Grid := [
    [0, 26, 26, 24, 30],
    [25, 0, 29, 24, 29],
    [25, 25, 0, 24, 33],
    [25, 25, 27, 0, 31],
    [25, 28, 28, 24, 0]]

  const S5: Grid := [
    [0, 28, 28, 24, 30],
    [25, 0, 29, 24, 29],
    [25, 28, 0, 24, 33],
    [25, 28, 28, 0, 31],
    [25, 28, 28, 24, 0]]

  lemma ExampleInitial()
    ensures Initial(D, 5) == S0
  {
    GridExt(Initial(D, 5), S0, 5);
  }

  lemma Round0()
    ensures IsGrid(S0, 5) && Relax(S0, 5, 0) == S1
  {
    GridExt(Relax(S0, 5, 0), S1, 5);
  }

  lemma Round1()
    ensures IsGrid(S1, 5) && Relax(S1, 5, 1) == S2
  {
    GridExt(Relax(S1, 5, 1), S2, 5);
  }

  lemma Round2()
    ensures IsGrid(S2, 5) && Relax(S2, 5, 2) == S3
  {
    GridExt(Relax(S2, 5, 2), S3, 5);
  }

  /** The round through E changes nothing. */
  lemma Round3()
    ensures IsGrid(S3, 5) && Relax(S3, 5, 3) == S3
  {
    GridExt(Relax(S3, 5, 3), S3, 5);
  }

  lemma Round4()
    ensures Relax(S3, 5, 4) == S5
  {
    GridExt(Relax(S3, 5, 4), S5, 5);
  }

  /** The strongest-path strengths of the example. */
  lemma ExampleStrengths()
    ensures IsGrid(S0, 5) && Strongest(S0, 5, 5) == S5
  {
    Round0();
    Round1();
    Round2();
    Round3();
    Round4();
    assert Strongest(S0, 5, 0) == S0;
    RoundOnto(S0, 5, 0, S0, S1);
    RoundOnto(S0, 5, 1, S1, S2);
    RoundOnto(S0, 5, 2, S2, S3);
    RoundOnto(S0, 5, 3, S3, S3);
    RoundOnto(S0, 5, 4, S3, S5);
  }

  /** When the first `n` rounds give `s` and round `n` turns `s` into `r`, the first `n + 1`
      rounds give `r`. */
  lemma RoundOnto(p: Grid, c: nat, n: nat, s: Grid, r: Grid)
    requires IsGrid(p, c) && n < c
    requires Strongest(p, c, n) == s && IsGrid(s, c) && Relax(s, c, n) == r
    ensures Strongest(p, c, n + 1) == r
  {
  }

  /** A loses only to E, C to A and E, B to A, C and E, D to everyone, E to no one. */
  lemma ExampleRanks()
    ensures IsGrid(S5, 5) && RankList(S5, 5) == [2, 3, 4, 1, 5]
  {
    var expected: seq<nat> := [2, 3, 4, 1, 5];
    forall i | 0 <= i < 5 ensures RankList(S5, 5)[i] == expected[i] {
      ExampleBeaten(i);
    }
  }

  /** Who beats whom in the final strengths, by position in the first ballot ACBED:
      A loses only to E, C to A and E, B to A, C and E, E to no one, D to everyone. */
  lemma ExampleBeaten(i: nat)
    requires i < 5
    ensures IsGrid(S5, 5) && Rank(S5, 5, i) == [2, 3, 4, 1, 5][i]
  {
    if i == 0 {
      assert BeatenBy(S5, 5, 0, 5) == {3};
    } else if i == 1 {
      assert BeatenBy(S5, 5, 1, 5) == {0, 3};
    } else if i == 2 {
      assert BeatenBy(S5, 5, 2, 5) == {0, 1, 3};
    } else if i == 3 {
      assert BeatenBy(S5, 5, 3, 5) == {};
    } else {
      assert BeatenBy(S5, 5, 4, 5) == {0, 1, 2, 3};
    }
  }

  /** Picking out one rank from the five candidates in order. */
  lemma ExampleLevels(r: nat)
    ensures Level([0, 1, 2, 3, 4], [2, 3, 4, 1, 5], r) ==
      if r == 2 then [0] else if r == 3 then [1] else if r == 4 then [2]
      else if r == 1 then [3] else if r == 5 then [4] else []
  {
    var order: seq<nat> := [0, 1, 2, 3, 4];
    var ranks: seq<nat> := [2, 3, 4, 1, 5];
    if 1 <= r <= 5 {
      var t := if r == 2 then 0 else if r == 3 then 1 else if r == 4 then 2 else if r == 1 then 3 else 4;
      LevelUnique(order, ranks, r, t);
    } else {
      LevelEmpty(order, ranks, r);
    }
  }

  lemma ExampleOrder()
    ensures SortByRank(Range(0, 5), [2, 3, 4, 1, 5], 5) == [3, 0, 1, 2, 4]
  {
    var ranks: seq<nat> := [2, 3, 4, 1, 5];
    var o: seq<nat> := [0, 1, 2, 3, 4];
    assert Range(0, 5) == o;
    ExampleLevels(1);
    ExampleLevels(2);
    ExampleLevels(3);
    ExampleLevels(4);
    ExampleLevels(5);
    assert SortByRank(o, ranks, 1) == [3];
    assert SortByRank(o, ranks, 2) == [3, 0];
    assert SortByRank(o, ranks, 3) == [3, 0, 1];
    assert SortByRank(o, ranks, 4) == [3, 0, 1, 2];
    assert SortByRank(o, ranks, 5) == [3, 0, 1, 2, 4];
  }

  lemma BallotStrengths()
    ensures ProperBallots(Ballots()) && |Ballots()| > 0
    ensures Strengths(Ballots()) == S5
  {
    BallotsProper();
    ExamplePreferences();
    ExampleInitial();
    ExampleStrengths();
  }

  lemma ExampleRankOrder()
    ensures IsGrid(S5, 5) && RankOrder(S5, 5) == [3, 0, 1, 2, 4]
  {
    ExampleRanks();
    ExampleOrder();
  }

  /** `test_schulze`: the 45 ballots rank E first, then A, C, B and D. */
  lemma ExampleOutcome()
    ensures ProperBallots(Ballots())
    ensures Outcome(Ballots()) == Ok("EACBD")
  {
    BallotsProper();
    BallotStrengths();
    ExampleRankOrder();
    assert Order(Ballots()) == [3, 0, 1, 2, 4];
    ExampleNames();
  }

  /** Positions 3, 0, 1, 2, 4 of the first ballot spell E, A, C, B, D. */
  lemma ExampleNames()
    ensures Names(G1, [3, 0, 1, 2, 4]) == "EACBD"
  {
    var names := Names(G1, [3, 0, 1, 2, 4]);
    assert names[0] == 'E' && names[1] == 'A' && names[2] == 'C' && names[3] == 'B' && names[4] == 'D';
  }
}
