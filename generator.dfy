/** `Create_Instance`: build the linkage of a problem class, rearrange it, fill a table of
    values whose shape follows from the linkage, and write the instance as text. */
module Generator {
  import opened Indices
  import opened Outcomes
  import Linkage
  import Separable
  import Mesh
  import opened Rearrangement
  import opened Values
  import opened Text
  import opened Layout

  /** The five linkage models. */
  datatype LinkageModel =
    | NearestNeighborLinks
    | UnrestrictedLinks
    | SeparableLinks
    | MeshLinks
    | SatLikeLinks

  /** A problem class: the settings every instance of the class shares. The number
      generator (`Uniform`, `Normal` or `Scaled`) is represented by the numbers it hands
      out, which are part of `Randomness`. */
  datatype ProblemClass = ProblemClass(
    n: nat,
    k: nat,
    evalConst: nat,
    linkage: LinkageModel,
    arrangement: Arrangement,
    levels: Cardinality)

  /** The outcomes of every random call one instance makes. */
  datatype Randomness = Randomness(
    samples: seq<seq<nat>>,           // Unrestricted: the sample drawn for row i
    blockSamples: seq<seq<seq<nat>>>, // Separable: the sample drawn for member t of block b
    clauses: seq<seq<nat>>,           // SAT_like: the variables drawn for clause c
    ordering: seq<nat>,               // Scatter: the shuffled range(N)
    poolDraw: nat -> real,            // the t-th number drawn while filling the pool
    choice: (nat, nat, nat) -> nat,   // the index random.choice picks for a cell among size options
    cellDraw: (nat, nat) -> real)     // the number drawn for a cell when no pool is used

  /** `Create_Class`'s ranges: N in [50, 300], K in [1, 5], eval_const in {1, 4, 16}. */
  predicate ValidClass(c: ProblemClass) {
    50 <= c.n <= 300 && 1 <= c.k <= 5 && c.evalConst in {1, 4, 16}
  }

  /** Every random outcome is one the library call could have produced; `satCount`
      stands for `int(4.27 * N)`. */
  ghost predicate ValidRandomness(c: ProblemClass, satCount: nat, rnd: Randomness) {
    && (c.linkage == UnrestrictedLinks ==>
         |rnd.samples| == c.n && (c.k < c.n ==> Linkage.UnrestrictedDraws(c.n, c.k, rnd.samples)))
    && (c.linkage == SeparableLinks && c.k > 0 ==>
         Separable.BlockDraws(Separable.ChunksFrom(Range(0, c.n), 0, 2 * c.k), c.k, rnd.blockSamples))
    && (c.linkage == SatLikeLinks ==>
         |rnd.clauses| == satCount && (c.k < c.n ==> Linkage.ClauseDraws(c.n, c.k, rnd.clauses)))
    && (c.arrangement == Scatter ==> IsPermutation(rnd.ordering, c.n))
    && ValidChoice(rnd.choice)
  }

  // ---------------------------------------------------------------- linkage

  /** `epistasis(N, K)` for the chosen linkage model. */
  function Links(c: ProblemClass, satCount: nat, rnd: Randomness): Result<Adjacency>
    requires ValidRandomness(c, satCount, rnd)
  {
    match c.linkage
    case NearestNeighborLinks => Ok(Linkage.NearestNeighbor(c.n, c.k))
    case UnrestrictedLinks => Linkage.Unrestricted(c.n, c.k, rnd.samples)
    case SeparableLinks =>
      if c.k == 0 then (if c.n > 0 then Err(ZeroDivision) else Ok([]))
      else Ok(Separable.SeparableRows(Separable.ChunksFrom(Range(0, c.n), 0, 2 * c.k), rnd.blockSamples))
    case MeshLinks =>
      if c.n == 0 then Ok([]) else Ok(Mesh.MeshEdges(c.n, Mesh.Width(c.n, c.k + 1), c.k + 1, c.n))
    case SatLikeLinks => Linkage.SatLike(c.n, c.k, satCount, rnd.clauses)
  }

  /** Runs the chosen linkage model, including the loops of `Separable` and `Mesh`. */
  method Link(c: ProblemClass, satCount: nat, rnd: Randomness) returns (r: Result<Adjacency>)
    requires ValidRandomness(c, satCount, rnd)
    ensures r == Links(c, satCount, rnd)
  {
    match c.linkage {
      case NearestNeighborLinks =>
        r := Ok(Linkage.NearestNeighbor(c.n, c.k));
      case UnrestrictedLinks =>
        r := Linkage.Unrestricted(c.n, c.k, rnd.samples);
      case SeparableLinks =>
        r := Separable.Separable(c.n, c.k, rnd.blockSamples);
        if c.k == 0 && c.n == 0 {
          assert r.Ok? && |r.value| == 0;
        }
      case MeshLinks =>
        var edges := Mesh.Mesh(c.n, c.k);
        r := Ok(edges);
      case SatLikeLinks =>
        r := Linkage.SatLike(c.n, c.k, satCount, rnd.clauses);
    }
  }

  /** Every linkage model yields rows of at least one variable, each below `n`: rows of
      distinct variables for all models but `Mesh`, whose self-loops repeat a vertex. */
  lemma LinksShape(c: ProblemClass, satCount: nat, rnd: Randomness)
    requires ValidRandomness(c, satCount, rnd) && Links(c, satCount, rnd).Ok?
    ensures var adj := Links(c, satCount, rnd).value;
      InRange(adj, c.n) && forall g :: 0 <= g < |adj| ==> |adj[g]| >= 1
    ensures c.linkage == SatLikeLinks ==> |Links(c, satCount, rnd).value| == satCount
    ensures c.linkage != SatLikeLinks ==> |Links(c, satCount, rnd).value| == c.n || c.linkage == MeshLinks
    ensures c.linkage != MeshLinks && (c.linkage == NearestNeighborLinks ==> c.k < c.n) ==>
      WellFormed(Links(c, satCount, rnd).value, c.n)
  {
    match c.linkage {
      case NearestNeighborLinks =>
        Linkage.NearestNeighborWellFormed(c.n, c.k);
      case UnrestrictedLinks =>
      case SeparableLinks =>
        if c.k > 0 {
          Separable.SeparableShape(c.n, c.k, rnd.blockSamples);
        }
      case MeshLinks =>
        if c.n > 0 {
          Mesh.WidthPositive(c.n, c.k + 1);
          Mesh.MeshEdgesLayout(c.n, Mesh.Width(c.n, c.k + 1), c.k + 1, c.n);
        }
      case SatLikeLinks =>
    }
  }

  /** `arrangement(N, epistasis(N, K))`. */
  function Adjacency(c: ProblemClass, satCount: nat, rnd: Randomness): Result<Adjacency>
    requires ValidRandomness(c, satCount, rnd)
  {
    var links :- Links(c, satCount, rnd);
    Rearrange(c.arrangement, c.n, links, rnd.ordering)
  }

  // ---------------------------------------------------------------- table and header

  /** `[[rng() for _ in range(1 << w)] for _ in range(rows)]` with `w = len(adjacency[0])`:
      every row is as wide as the first linkage row calls for. */
  function TableFor(c: ProblemClass, adj: Adjacency, rnd: Randomness): (t: seq<seq<real>>)
    requires |adj| >= 1 && ValidChoice(rnd.choice)
    ensures |t| == |adj|
    ensures forall r :: 0 <= r < |t| ==> |t[r]| == Shl(1, |adj[0]|)
  {
    var w := |adj[0]|;
    Table(MakeSampler(c.levels, w, rnd.poolDraw), |adj|, Shl(1, w), rnd.choice, rnd.cellDraw)
  }

  /** The evaluation budget `2 * N * N // eval_const`. */
  function Budget(n: nat, evalConst: nat): nat
    requires evalConst > 0
  {
    2 * n * n / evalConst
  }

  /** The budget is `2 N^2 / eval_const` rounded down. */
  lemma BudgetBounds(n: nat, evalConst: nat)
    requires evalConst > 0
    ensures Budget(n, evalConst) * evalConst <= 2 * n * n < (Budget(n, evalConst) + 1) * evalConst
  {
    var q, r := 2 * n * n / evalConst, 2 * n * n % evalConst;
    assert 2 * n * n == q * evalConst + r;
    assert (q + 1) * evalConst == q * evalConst + evalConst;
  }

  /** The header line: N zero-padded to three digits, the budget zero-padded to six, then
      the variables per row and the row count in plain decimal, separated by spaces. */
  function HeaderLine(n: nat, budget: nat, width: nat, rows: nat): string {
    Join(' ', [ZeroPad(n, 3), ZeroPad(budget, 6), Decimal(width), Decimal(rows)])
  }

  /** The header holds four digit fields that read back as N, the budget, the row width
      and the row count, and it holds no newline. */
  lemma HeaderFields(n: nat, budget: nat, width: nat, rows: nat)
    ensures var fields := Split(' ', HeaderLine(n, budget, width, rows));
      && |fields| == 4
      && (forall t :: 0 <= t < 4 ==> AllDigits(fields[t]))
      && ParseDecimal(fields[0]) == n && |fields[0]| >= 3
      && ParseDecimal(fields[1]) == budget && |fields[1]| >= 6
      && ParseDecimal(fields[2]) == width
      && ParseDecimal(fields[3]) == rows
    ensures '\n' !in HeaderLine(n, budget, width, rows)
  {
    var fields := [ZeroPad(n, 3), ZeroPad(budget, 6), Decimal(width), Decimal(rows)];
    ZeroPadFacts(n, 3);
    ZeroPadFacts(budget, 6);
    DecimalRoundTrip(width);
    DecimalRoundTrip(rows);
    DigitFields(fields);
  }

  // ---------------------------------------------------------------- Create_Instance

  /** The instance text, or the exception `Create_Instance` raises: the linkage's own
      error, an IndexError when the adjacency is empty, a ZeroDivisionError when
      `eval_const` is zero. */
  function InstanceText(c: ProblemClass, satCount: nat, rnd: Randomness, fmt: real -> string): Result<string>
    requires ValidRandomness(c, satCount, rnd)
  {
    var adj :- Adjacency(c, satCount, rnd);
    TextFor(c, adj, rnd, fmt)
  }

  /** What `Create_Instance` returns once the adjacency is built. */
  function TextFor(c: ProblemClass, adj: Adjacency, rnd: Randomness, fmt: real -> string): Result<string>
    requires ValidChoice(rnd.choice)
  {
    if |adj| == 0 then Err(IndexOutOfRange)
    else if c.evalConst == 0 then Err(ZeroDivision)
    else
      var table := TableFor(c, adj, rnd);
      Ok(HeaderLine(c.n, Budget(c.n, c.evalConst), |adj[0]|, |adj|) + "\n" + Body(adj, table, fmt, Zipped(adj, table)))
  }

  /** `arrangement(N, epistasis(N, K))`, the linkage model's loops included. */
  method Arranged(c: ProblemClass, satCount: nat, rnd: Randomness) returns (r: Result<Adjacency>)
    requires ValidRandomness(c, satCount, rnd)
    ensures r == Adjacency(c, satCount, rnd)
  {
    var links := Link(c, satCount, rnd);
    if links.Err? {
      return Err(links.error);
    }
    r := Rearrange(c.arrangement, c.n, links.value, rnd.ordering);
  }

  /** The rest of `Create_Instance` once the adjacency is built: the row count and width,
      the table, the header and the `result +=` loop. */
  method Write(c: ProblemClass, adjacency: Adjacency, rnd: Randomness, fmt: real -> string)
    returns (r: Result<string>)
    requires ValidChoice(rnd.choice)
    ensures r == TextFor(c, adjacency, rnd, fmt)
  {
    if |adjacency| == 0 {
      return Err(IndexOutOfRange);
    }
    var rows := |adjacency|;
    var variablesPerRow := |adjacency[0]|;
    var rng := MakeSampler(c.levels, variablesPerRow, rnd.poolDraw);
    var table := Table(rng, rows, Shl(1, variablesPerRow), rnd.choice, rnd.cellDraw);
    assert table == TableFor(c, adjacency, rnd);
    if c.evalConst == 0 {
      return Err(ZeroDivision);
    }
    var header := HeaderLine(c.n, Budget(c.n, c.evalConst), variablesPerRow, rows) + "\n";
    var text := Render(header, adjacency, table, fmt);
    return Ok(text);
  }

  /** `Create_Instance(N, K, eval_const, epistasis, arrangement, number_maker, value_levels)`. */
  method CreateInstance(c: ProblemClass, satCount: nat, rnd: Randomness, fmt: real -> string)
    returns (r: Result<string>)
    requires ValidRandomness(c, satCount, rnd)
    ensures r == InstanceText(c, satCount, rnd, fmt)
  {
    var arranged := Arranged(c, satCount, rnd);
    if arranged.Err? {
      return Err(arranged.error);
    }
    r := Write(c, arranged.value, rnd, fmt);
  }

  /** A class within `Create_Class`'s ranges always yields an instance (given at least
      one SAT-like clause, which `int(4.27 * N)` provides for every such N). */
  lemma ValidClassSucceeds(c: ProblemClass, satCount: nat, rnd: Randomness, fmt: real -> string)
    requires ValidClass(c) && satCount >= 1 && ValidRandomness(c, satCount, rnd)
    ensures InstanceText(c, satCount, rnd, fmt).Ok?
  {
    assert Links(c, satCount, rnd).Ok?;
    LinksShape(c, satCount, rnd);
    var links := Links(c, satCount, rnd).value;
    RearrangeShape(c.arrangement, c.n, links, rnd.ordering);
    if c.linkage == MeshLinks {
      Mesh.WidthPositive(c.n, c.k + 1);
      Mesh.MeshEdgesLayout(c.n, Mesh.Width(c.n, c.k + 1), c.k + 1, c.n);
      Mesh.SlotStep(0, c.k + 1);
      Mesh.SlotBefore(0, 0, c.n, c.k + 1);
    }
  }

  /** The text is a header line and one line per adjacency row, `1 + rows` lines in all.
      The header reads back as N, the budget, the first row's width `w` and the row count;
      the table has one row per adjacency row, each `1 << w` values wide; line `i` holds
      the indices of row `i`, each zero-padded to at least 3 digits and reading back as
      the index, followed by the values of table row `i`. */
  lemma InstanceLayout(c: ProblemClass, satCount: nat, rnd: Randomness, fmt: real -> string)
    requires ValidRandomness(c, satCount, rnd) && ValidFormat(fmt)
    requires InstanceText(c, satCount, rnd, fmt).Ok?
    ensures var adj := Adjacency(c, satCount, rnd).value;
      var table := TableFor(c, adj, rnd);
      var lines := Split('\n', InstanceText(c, satCount, rnd, fmt).value);
      && |adj| >= 1 && c.evalConst > 0
      && |table| == |adj|
      && (forall r :: 0 <= r < |table| ==> |table[r]| == Shl(1, |adj[0]|))
      && lines == [HeaderLine(c.n, Budget(c.n, c.evalConst), |adj[0]|, |adj|)] + Lines(adj, table, fmt, |adj|) + [[]]
      && (forall i :: 0 <= i < |adj| ==>
            Split(' ', lines[i + 1]) == IndexTokens(adj[i]) + ValueTokens(table[i], fmt))
  {
    InstanceTextParts(c, satCount, rnd, fmt);
    var adj := Adjacency(c, satCount, rnd).value;
    var table := TableFor(c, adj, rnd);
    var header := HeaderLine(c.n, Budget(c.n, c.evalConst), |adj[0]|, |adj|);
    ShlPositive(1, |adj[0]|);
    HeaderFields(c.n, Budget(c.n, c.evalConst), |adj[0]|, |adj|);
    TextLayout(header, adj, table, fmt, |adj|);
  }

  /** When the text exists, it is the header line followed by the rendered rows of a
      non-empty adjacency whose rows are non-empty. */
  lemma InstanceTextParts(c: ProblemClass, satCount: nat, rnd: Randomness, fmt: real -> string)
    requires ValidRandomness(c, satCount, rnd) && InstanceText(c, satCount, rnd, fmt).Ok?
    ensures Adjacency(c, satCount, rnd).Ok?
    ensures var adj := Adjacency(c, satCount, rnd).value;
      && |adj| >= 1 && c.evalConst > 0 && (forall g :: 0 <= g < |adj| ==> |adj[g]| >= 1)
      && InstanceText(c, satCount, rnd, fmt).value ==
         HeaderLine(c.n, Budget(c.n, c.evalConst), |adj[0]|, |adj|) + "\n" + Body(adj, TableFor(c, adj, rnd), fmt, |adj|)
  {
    LinksShape(c, satCount, rnd);
    RearrangeShape(c.arrangement, c.n, Links(c, satCount, rnd).value, rnd.ordering);
  }

  /** N = 7, K = 2, Separable without rearrangement: the trailing block {5, 6} gives rows
      5 and 6 only 2 variables, yet every table row is `1 << 3 = 8` values wide, because
      the width comes from row 0. */
  lemma SeparableWidthQuirk(rnd: Randomness)
    requires ValidRandomness(ProblemClass(7, 2, 1, SeparableLinks, NoChange, AllUnique), 0, rnd)
    ensures var c := ProblemClass(7, 2, 1, SeparableLinks, NoChange, AllUnique);
      var adj := Adjacency(c, 0, rnd).value;
      && Adjacency(c, 0, rnd).Ok?
      && |adj| == 7 && |adj[0]| == 3 && |adj[5]| == 2 && |adj[6]| == 2
      && (forall r :: 0 <= r < 7 ==> |TableFor(c, adj, rnd)[r]| == 8)
  {
    var c := ProblemClass(7, 2, 1, SeparableLinks, NoChange, AllUnique);
    Separable.ShortTrailingBlock();
    var blocks := Separable.ChunksFrom(Range(0, 7), 0, 4);
    var d := rnd.blockSamples;
    assert |d| == 2 && |d[0]| == 5 && |d[1]| == 2;
    assert |d[0][0]| == Separable.Min(2, 4) == 2;
    assert |d[1][0]| == Separable.Min(2, 1) == 1 && |d[1][1]| == 1;
    var rows := Separable.SeparableRows(blocks, d);
    assert blocks[1..] == [[5, 6]] && d[1..] == [d[1]];
    assert Separable.SeparableRows([[5, 6]], [d[1]]) ==
      Separable.BlockRows([5, 6], d[1]) + Separable.SeparableRows([], []);
    assert rows == Separable.BlockRows(blocks[0], d[0]) + Separable.BlockRows([5, 6], d[1]);
    assert rows[0] == [0] + d[0][0];
    assert rows[5] == [5] + d[1][0] && rows[6] == [6] + d[1][1];
    assert Shl(1, 3) == 8;
  }
}
