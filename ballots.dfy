/** Turning one problem's results into ballots: for every test instance, the competitors
    that have a result for it, best first. A result is better when its best value is
    higher, then when more evaluations remained when it was reached, then when its
    competitor key is larger. */
module Ballots {
  import opened Indices
  import Schulze

  /** One entry of a competitor's `testingResults`. */
  datatype InstanceResult = InstanceResult(bestValue: real, remaining: int)

  /** A competitor: its key (name and language) and its results, one per test instance. */
  datatype Entry = Entry(key: string, results: seq<InstanceResult>)

  /** The tuple `(bestValue, remainingEvaluationsWhenBestReached, competitor_key)`. */
  datatype Sortable = Sortable(bestValue: real, remaining: int, key: string)

  /** The competitors come from a dictionary, so no key appears twice. */
  predicate DistinctKeys(problem: seq<Entry>) {
    forall a, b :: 0 <= a < b < |problem| ==> problem[a].key != problem[b].key
  }

  // ---------------------------------------------------------------- ordering

  /** Python's `<` on strings: the first differing character decides, and a proper prefix
      comes first. */
  predicate StrLess(a: string, b: string) {
    if a == [] then b != []
    else if b == [] then false
    else if a[0] != b[0] then a[0] < b[0]
    else StrLess(a[1..], b[1..])
  }

  lemma {:induction false} StrLessIrreflexive(a: string)
    ensures !StrLess(a, a)
  {
    if a != [] {
      StrLessIrreflexive(a[1..]);
    }
  }

  lemma {:induction false} StrLessTransitive(a: string, b: string, c: string)
    requires StrLess(a, b) && StrLess(b, c)
    ensures StrLess(a, c)
  {
    if a != [] && b != [] && c != [] && a[0] == b[0] == c[0] {
      StrLessTransitive(a[1..], b[1..], c[1..]);
    }
  }

  lemma {:induction false} StrLessTotal(a: string, b: string)
    ensures a == b || StrLess(a, b) || StrLess(b, a)
  {
    if a != [] && b != [] && a[0] == b[0] {
      StrLessTotal(a[1..], b[1..]);
      if a[1..] == b[1..] {
        assert a == [a[0]] + a[1..] && b == [b[0]] + b[1..];
      }
    }
  }

  /** Python's `<` on the tuples: lexicographic over the three fields. */
  predicate Less(x: Sortable, y: Sortable) {
    x.bestValue < y.bestValue ||
    (x.bestValue == y.bestValue &&
      (x.remaining < y.remaining || (x.remaining == y.remaining && StrLess(x.key, y.key))))
  }

  /** `Less` is a strict total order on the tuples. */
  lemma LessOrder(x: Sortable, y: Sortable, z: Sortable)
    ensures !Less(x, x)
    ensures Less(x, y) && Less(y, z) ==> Less(x, z)
    ensures x == y || Less(x, y) || Less(y, x)
  {
    StrLessIrreflexive(x.key);
    if Less(x, y) && Less(y, z) && x.bestValue == y.bestValue == z.bestValue && x.remaining == y.remaining == z.remaining {
      StrLessTransitive(x.key, y.key, z.key);
    }
    StrLessTotal(x.key, y.key);
  }

  /** "Not smaller than" is transitive too. */
  lemma NotLessTransitive(x: Sortable, y: Sortable, z: Sortable)
    requires !Less(x, y) && !Less(y, z)
    ensures !Less(x, z)
  {
    LessOrder(y, x, z);
    LessOrder(x, y, y);
  }

  /** No tuple is greater than one before it. */
  predicate Descending(s: seq<Sortable>) {
    forall a, b :: 0 <= a < b < |s| ==> !Less(s[a], s[b])
  }

  function Keys(s: seq<Sortable>): (keys: seq<string>)
    ensures |keys| == |s| && forall t :: 0 <= t < |s| ==> keys[t] == s[t].key
  {
    seq(|s|, t requires 0 <= t < |s| => s[t].key)
  }

  lemma KeysRemove(b: seq<Sortable>, t: nat)
    requires t < |b|
    ensures Keys(b[..t] + b[t + 1..]) == Keys(b)[..t] + Keys(b)[t + 1..]
  {
  }

  /** Tuples that are a permutation of each other have keys that are too. */
  lemma {:induction false} KeysPermute(a: seq<Sortable>, b: seq<Sortable>)
    requires multiset(a) == multiset(b)
    ensures multiset(Keys(a)) == multiset(Keys(b))
    decreases |a|
  {
    if a == [] {
      assert |b| == |multiset(b)| == 0;
    } else {
      var x := a[|a| - 1];
      assert x in multiset(b);
      var t :| 0 <= t < |b| && b[t] == x;
      var front, rest := a[..|a| - 1], b[..t] + b[t + 1..];
      assert a[..|a| - 1] + a[|a|..] == front;
      MultisetRemove(a, |a| - 1);
      MultisetRemove(b, t);
      KeysRemove(a, |a| - 1);
      KeysRemove(b, t);
      KeysPermute(front, rest);
      var ka, kb := Keys(a), Keys(b);
      MultisetRemove(ka, |a| - 1);
      MultisetRemove(kb, t);
      assert multiset(front) == multiset(rest);
      assert ka[|a| - 1] == kb[t];
    }
  }

  /** Places `x` into the descending `s`, after every tuple not smaller than it. */
  function Insert(x: Sortable, s: seq<Sortable>): (r: seq<Sortable>)
    requires Descending(s)
    ensures Descending(r)
    ensures multiset(r) == multiset(s) + multiset{x}
  {
    if s == [] then [x]
    else if !Less(x, s[0]) then
      InsertFront(x, s);
      [x] + s
    else
      var rest := Insert(x, s[1..]);
      InsertBehind(x, s, rest);
      [s[0]] + rest
  }

  lemma InsertFront(x: Sortable, s: seq<Sortable>)
    requires Descending(s) && s != [] && !Less(x, s[0])
    ensures Descending([x] + s)
  {
    var r := [x] + s;
    forall a, b | 0 <= a < b < |r| ensures !Less(r[a], r[b]) {
      if a == 0 && b > 1 {
        NotLessTransitive(x, s[0], s[b - 1]);
      } else {
        assert r[a] == (if a == 0 then x else s[a - 1]) && r[b] == s[b - 1];
      }
    }
  }

  lemma InsertBehind(x: Sortable, s: seq<Sortable>, rest: seq<Sortable>)
    requires Descending(s) && s != [] && Less(x, s[0])
    requires Descending(rest) && multiset(rest) == multiset(s[1..]) + multiset{x}
    ensures Descending([s[0]] + rest)
    ensures multiset([s[0]] + rest) == multiset(s) + multiset{x}
  {
    assert s == [s[0]] + s[1..];
    var r := [s[0]] + rest;
    forall a, b | 0 <= a < b < |r| ensures !Less(r[a], r[b]) {
      if a == 0 {
        assert rest[b - 1] in multiset(rest);
        if rest[b - 1] == x {
          LessOrder(s[0], x, s[0]);
        } else {
          assert rest[b - 1] in s[1..];
          var t :| 0 <= t < |s[1..]| && s[1..][t] == rest[b - 1];
          assert s[t + 1] == rest[b - 1];
        }
        assert r[a] == s[0] && r[b] == rest[b - 1];
      } else {
        assert r[a] == rest[a - 1] && r[b] == rest[b - 1];
        assert !Less(rest[a - 1], rest[b - 1]);
      }
    }
  }

  /** `instance_results.sort(reverse=True)`: the same tuples, largest first. */
  function SortDescending(xs: seq<Sortable>): (r: seq<Sortable>)
    ensures Descending(r)
    ensures multiset(r) == multiset(xs)
  {
    if xs == [] then []
    else
      assert xs == [xs[0]] + xs[1..];
      Insert(xs[0], SortDescending(xs[1..]))
  }

  /** Two descending arrangements of the same tuples are the same sequence: since `Less`
      is total, the sorted result does not depend on how the sort got there. */
  lemma {:induction false} DescendingUnique(r: seq<Sortable>, s: seq<Sortable>)
    requires Descending(r) && Descending(s) && multiset(r) == multiset(s)
    ensures r == s
    decreases |r|
  {
    assert |r| == |multiset(r)| == |multiset(s)| == |s|;
    if r != [] {
      DescendingHead(r, s);
      DescendingTail(r);
      DescendingTail(s);
      MultisetTail(r, s);
      DescendingUnique(r[1..], s[1..]);
    }
  }

  /** Descending arrangements of the same tuples start with the same, greatest, tuple. */
  lemma DescendingHead(r: seq<Sortable>, s: seq<Sortable>)
    requires Descending(r) && Descending(s) && multiset(r) == multiset(s) && r != [] && s != []
    ensures r[0] == s[0]
  {
    assert r[0] in multiset(s) && s[0] in multiset(r);
    var u :| 0 <= u < |s| && s[u] == r[0];
    var v :| 0 <= v < |r| && r[v] == s[0];
    LessOrder(r[0], s[0], s[0]);
    LessOrder(s[0], r[0], r[0]);
  }

  lemma DescendingTail(r: seq<Sortable>)
    requires Descending(r) && r != []
    ensures Descending(r[1..])
  {
    forall a, b | 0 <= a < b < |r| - 1 ensures !Less(r[1..][a], r[1..][b]) {
      assert r[1..][a] == r[a + 1] && r[1..][b] == r[b + 1];
    }
  }

  // ---------------------------------------------------------------- grouping

  function SortableOf(e: Entry, i: nat): Sortable
    requires i < |e.results|
  {
    Sortable(e.results[i].bestValue, e.results[i].remaining, e.key)
  }

  /** The tuples gathered for instance `i`, in competitor order. */
  function Column(problem: seq<Entry>, i: nat): seq<Sortable>
    decreases |problem|
  {
    if problem == [] then []
    else
      var n := |problem| - 1;
      Column(problem[..n], i) + (if i < |problem[n].results| then [SortableOf(problem[n], i)] else [])
  }

  /** The number of instances anyone has a result for. */
  function MaxResults(problem: seq<Entry>): (m: nat)
    ensures forall c :: 0 <= c < |problem| ==> |problem[c].results| <= m
    ensures problem != [] ==> exists c :: 0 <= c < |problem| && |problem[c].results| == m
    ensures problem == [] ==> m == 0
    decreases |problem|
  {
    if problem == [] then 0
    else
      var n := |problem| - 1;
      var m := MaxResults(problem[..n]);
      assert forall c :: 0 <= c < n ==> problem[..n][c] == problem[c];
      if m < |problem[n].results| then |problem[n].results| else m
  }

  /** The tuple of each competitor with a result for instance `i`, and nothing else. */
  lemma {:induction false} ColumnMembers(problem: seq<Entry>, i: nat, x: Sortable)
    ensures x in Column(problem, i) <==>
      exists c :: 0 <= c < |problem| && i < |problem[c].results| && x == SortableOf(problem[c], i)
    decreases |problem|
  {
    if problem != [] {
      var n := |problem| - 1;
      ColumnMembers(problem[..n], i, x);
      assert forall c :: 0 <= c < n ==> problem[..n][c] == problem[c];
    }
  }

  /** Competitors have distinct keys, so a column holds no key twice. */
  lemma {:induction false} ColumnDistinct(problem: seq<Entry>, i: nat)
    requires DistinctKeys(problem)
    ensures Distinct(Keys(Column(problem, i)))
    decreases |problem|
  {
    if problem != [] {
      var n := |problem| - 1;
      var front := problem[..n];
      assert forall c :: 0 <= c < n ==> front[c] == problem[c];
      ColumnDistinct(front, i);
      if i < |problem[n].results| {
        var keys := Keys(Column(front, i));
        forall t | 0 <= t < |keys| ensures keys[t] != problem[n].key {
          var x := Column(front, i)[t];
          ColumnMembers(front, i, x);
        }
        assert Keys(Column(problem, i)) == keys + [problem[n].key];
      } else {
        assert Column(problem, i) == Column(front, i);
      }
    }
  }

  lemma ColumnEmpty(problem: seq<Entry>, i: nat)
    requires MaxResults(problem) <= i
    ensures Column(problem, i) == []
  {
    if Column(problem, i) != [] {
      ColumnMembers(problem, i, Column(problem, i)[0]);
    }
  }

  /** Adding competitor `e` after `front` adds its tuple to the end of column `i` when it has
      a result for instance `i`. */
  lemma ColumnSnoc(front: seq<Entry>, e: Entry, i: nat)
    ensures Column(front + [e], i) ==
      Column(front, i) + (if i < |e.results| then [SortableOf(e, i)] else [])
  {
    assert (front + [e])[..|front|] == front;
  }

  /** Adding competitor `e` raises the instance count to its own result count if that is larger. */
  lemma MaxResultsSnoc(front: seq<Entry>, e: Entry)
    ensures MaxResults(front + [e]) == Schulze.Max(MaxResults(front), |e.results|)
  {
    assert (front + [e])[..|front|] == front;
  }

  /** `grouped_by_instance` for the given competitors: one group per instance index. */
  function Columns(entries: seq<Entry>): (g: seq<seq<Sortable>>)
    ensures |g| == MaxResults(entries)
    ensures forall j :: 0 <= j < |g| ==> g[j] == Column(entries, j)
  {
    seq(MaxResults(entries), j requires j >= 0 => Column(entries, j))
  }

  /** Appends competitor `e`'s tuples to the groups, one per instance it has a result for. */
  method AddCompetitor(groups: seq<seq<Sortable>>, front: seq<Entry>, e: Entry)
    returns (g: seq<seq<Sortable>>)
    requires groups == Columns(front)
    ensures g == Columns(front + [e])
  {
    g := groups;
    var i := 0;
    while i < |e.results|
      invariant i <= |e.results|
      invariant GroupedUpTo(g, front, e, i)
    {
      var sortable := Sortable(e.results[i].bestValue, e.results[i].remaining, e.key);
      ghost var before := g;
      if i < |g| {
        g := g[i := g[i] + [sortable]];
      } else {
        g := g + [[sortable]];
      }
      GroupedStep(before, g, front, e, i);
      i := i + 1;
    }
    GroupedAll(g, front, e);
  }

  /** After the tuples of `e` for instances below `i`: those groups include `e`, the others
      do not yet, and there are as many groups as either side needs. */
  predicate GroupedUpTo(g: seq<seq<Sortable>>, front: seq<Entry>, e: Entry, i: nat) {
    && |g| == Schulze.Max(MaxResults(front), i)
    && forall j {:trigger g[j]} :: 0 <= j < |g| ==>
      g[j] == if j < i then Column(front + [e], j) else Column(front, j)
  }

  /** Appending `e`'s tuple for instance `i`, to its group or as a new group. */
  lemma GroupedStep(before: seq<seq<Sortable>>, after: seq<seq<Sortable>>, front: seq<Entry>, e: Entry, i: nat)
    requires i < |e.results| && GroupedUpTo(before, front, e, i)
    requires after == if i < |before| then before[i := before[i] + [SortableOf(e, i)]]
      else before + [[SortableOf(e, i)]]
    ensures GroupedUpTo(after, front, e, i + 1)
  {
    ColumnSnoc(front, e, i);
    if i >= |before| {
      ColumnEmpty(front, i);
    }
    forall j | 0 <= j < |after|
      ensures after[j] == if j < i + 1 then Column(front + [e], j) else Column(front, j)
    {
      if j != i {
        assert after[j] == before[j];
      }
    }
  }

  /** Once every tuple of `e` is placed, the groups are the columns of `front + [e]`. */
  lemma GroupedAll(g: seq<seq<Sortable>>, front: seq<Entry>, e: Entry)
    requires GroupedUpTo(g, front, e, |e.results|)
    ensures g == Columns(front + [e])
  {
    MaxResultsSnoc(front, e);
    forall j | 0 <= j < |g| ensures g[j] == Column(front + [e], j) {
      ColumnSnoc(front, e, j);
    }
  }

  /** The first loop: `grouped_by_instance`, whose keys are the instance indices in
      ascending order, since each competitor's results are numbered from 0. */
  method GroupByInstance(problem: seq<Entry>) returns (groups: seq<seq<Sortable>>)
    ensures groups == Columns(problem)
  {
    groups := [];
    var done: seq<Entry> := [];
    var c := 0;
    while c < |problem|
      invariant c <= |problem| && done == problem[..c]
      invariant groups == Columns(done)
    {
      groups := AddCompetitor(groups, done, problem[c]);
      done := done + [problem[c]];
      c := c + 1;
    }
    assert done == problem;
  }

  /** The ballot for one instance: the competitor keys, best result first. */
  function Ballot(column: seq<Sortable>): seq<string> {
    Keys(SortDescending(column))
  }

  /** `convert_problem_to_ballots`: one ballot per instance index. */
  function ProblemBallots(problem: seq<Entry>): seq<seq<string>> {
    seq(MaxResults(problem), i requires i >= 0 => Ballot(Column(problem, i)))
  }

  method ConvertProblemToBallots(problem: seq<Entry>) returns (ballots: seq<seq<string>>)
    ensures ballots == ProblemBallots(problem)
  {
    var groups := GroupByInstance(problem);
    ballots := RankGroups(groups);
    GroupBallots(problem, groups, ballots);
  }

  /** The second loop: one ballot per group, in instance order. */
  method RankGroups(groups: seq<seq<Sortable>>) returns (ballots: seq<seq<string>>)
    ensures |ballots| == |groups|
    ensures forall j {:trigger ballots[j]} :: 0 <= j < |groups| ==> ballots[j] == Ballot(groups[j])
  {
    ballots := [];
    var i := 0;
    while i < |groups|
      invariant i <= |groups|
      invariant |ballots| == i
      invariant forall j {:trigger ballots[j]} :: 0 <= j < i ==> ballots[j] == Ballot(groups[j])
    {
      var ranked, ballot := RankInstance(groups[i]);
      DescendingUnique(ranked, SortDescending(groups[i]));
      ballots := ballots + [ballot];
      i := i + 1;
    }
  }

  /** One ballot per group, each the ranked keys of its group, are the problem's ballots. */
  lemma GroupBallots(problem: seq<Entry>, groups: seq<seq<Sortable>>, ballots: seq<seq<string>>)
    requires groups == Columns(problem)
    requires |ballots| == |groups|
    requires forall j {:trigger ballots[j]} :: 0 <= j < |groups| ==> ballots[j] == Ballot(groups[j])
    ensures ballots == ProblemBallots(problem)
  {
  }

  /** The loop body for one instance: sort its tuples largest first, then keep the keys. */
  method RankInstance(group: seq<Sortable>) returns (ranked: seq<Sortable>, ballot: seq<string>)
    ensures Descending(ranked) && multiset(ranked) == multiset(group)
    ensures |ballot| == |ranked| == |group| && forall t :: 0 <= t < |ballot| ==> ballot[t] == ranked[t].key
  {
    ranked := SortDescending(group);
    assert |ranked| == |multiset(ranked)| == |multiset(group)| == |group|;
    ballot := Keys(ranked);
  }

  // ---------------------------------------------------------------- properties

  /** Instance `i` gets a ballot exactly when some competitor has a result for it; that
      ballot names each competitor with such a result exactly once, and nobody else. */
  lemma BallotMembers(problem: seq<Entry>, i: nat)
    requires DistinctKeys(problem)
    ensures i < |ProblemBallots(problem)| <==> exists c :: 0 <= c < |problem| && i < |problem[c].results|
    ensures i < |ProblemBallots(problem)| ==> Distinct(ProblemBallots(problem)[i])
    ensures i < |ProblemBallots(problem)| ==> forall c :: 0 <= c < |problem| ==>
      (problem[c].key in ProblemBallots(problem)[i] <==> i < |problem[c].results|)
    ensures i < |ProblemBallots(problem)| ==> forall k :: k in ProblemBallots(problem)[i] ==>
      exists c :: 0 <= c < |problem| && problem[c].key == k
  {
    if i < MaxResults(problem) {
      var column := Column(problem, i);
      var ballot := Ballot(column);
      KeysPermute(SortDescending(column), column);
      ColumnDistinct(problem, i);
      DistinctPermute(ballot, Keys(column));
      forall c | 0 <= c < |problem| ensures problem[c].key in ballot <==> i < |problem[c].results| {
        if i < |problem[c].results| {
          ColumnMembers(problem, i, SortableOf(problem[c], i));
          var t :| 0 <= t < |column| && column[t] == SortableOf(problem[c], i);
          assert Keys(column)[t] == problem[c].key;
          assert problem[c].key in multiset(ballot);
        } else {
          forall t | 0 <= t < |column| ensures Keys(column)[t] != problem[c].key {
            ColumnMembers(problem, i, column[t]);
          }
          assert problem[c].key !in multiset(Keys(column));
        }
      }
      forall k | k in ballot ensures exists c :: 0 <= c < |problem| && problem[c].key == k {
        assert k in multiset(Keys(column));
        var t :| 0 <= t < |column| && Keys(column)[t] == k;
        ColumnMembers(problem, i, column[t]);
      }
    }
  }

  /** Within a ballot, each competitor's tuple is strictly smaller than the one before it:
      a lower best value, or the same best value and fewer remaining evaluations, or both
      equal and a smaller key. */
  lemma BallotOrder(problem: seq<Entry>, i: nat)
    requires DistinctKeys(problem)
    ensures forall a, b :: 0 <= a < b < |SortDescending(Column(problem, i))| ==>
      Less(SortDescending(Column(problem, i))[b], SortDescending(Column(problem, i))[a])
  {
    var ranked := SortDescending(Column(problem, i));
    KeysPermute(ranked, Column(problem, i));
    ColumnDistinct(problem, i);
    DistinctPermute(Keys(ranked), Keys(Column(problem, i)));
    forall a, b | 0 <= a < b < |ranked| ensures Less(ranked[b], ranked[a]) {
      assert Keys(ranked)[a] != Keys(ranked)[b];
      LessOrder(ranked[a], ranked[b], ranked[b]);
    }
  }

  /** With equal result counts, each ballot names exactly the competitors. */
  lemma BallotFull(problem: seq<Entry>, n: nat, t: nat, ballot: seq<string>)
    requires DistinctKeys(problem) && problem != []
    requires forall c :: 0 <= c < |problem| ==> |problem[c].results| == n
    requires t < n && ballot == ProblemBallots(problem)[t]
    ensures forall k :: k in ballot <==> exists c :: 0 <= c < |problem| && problem[c].key == k
  {
    BallotMembers(problem, t);
  }

  /** When every competitor has a result for each of the same `n` instances, the ballots
      are what `schulze` accepts: the first names each competitor once, and every ballot
      lists all of them. */
  lemma BallotsProper(problem: seq<Entry>, n: nat)
    requires DistinctKeys(problem) && problem != []
    requires forall c :: 0 <= c < |problem| ==> |problem[c].results| == n
    ensures |ProblemBallots(problem)| == n
    ensures Schulze.ProperBallots(ProblemBallots(problem))
  {
    var ballots := ProblemBallots(problem);
    assert |problem[0].results| == n;
    assert |ballots| == n;
    if n > 0 {
      BallotMembers(problem, 0);
      assert Distinct(ballots[0]);
      forall t, j | 0 <= t < |ballots| && 0 <= j < |ballots[0]| ensures ballots[0][j] in ballots[t] {
        var k := ballots[0][j];
        BallotFull(problem, n, 0, ballots[0]);
        assert k in ballots[0];
        var c :| 0 <= c < |problem| && problem[c].key == k;
        BallotFull(problem, n, t, ballots[t]);
      }
      assert Schulze.Complete(ballots, ballots[0]);
    }
  }
}
