/** The older generator: three linkage models, a table of exactly N rows that are each
    `2 << K` values wide, and a header of N, `N * N / eval_const` (Python 2 integer
    division) and K. The linkage and rearrangement models it shares with the newer
    generator are the same functions. */
module MetaNK {
  import opened Indices
  import opened Outcomes
  import Linkage
  import Separable
  import opened Rearrangement
  import opened Values
  import opened Text
  import opened Layout
  import Generator
  import Mesh

  /** The three linkage models of the older generator. */
  datatype LinkageModel = NearestNeighborLinks | UnrestrictedLinks | SeparableLinks

  datatype MetaClass = MetaClass(
    n: nat,
    k: nat,
    evalConst: nat,
    linkage: LinkageModel,
    arrangement: Arrangement,
    levels: Cardinality)

  /** `Create_Class`'s ranges here: N in [50, 500], K in [1, 5], eval_const in {1, 4, 16}. */
  predicate ValidClass(c: MetaClass) {
    50 <= c.n <= 500 && 1 <= c.k <= 5 && c.evalConst in {1, 4, 16}
  }

  /** Every random outcome is one the library call could have produced. */
  ghost predicate ValidRandomness(c: MetaClass, rnd: Generator.Randomness) {
    && (c.linkage == UnrestrictedLinks ==>
         |rnd.samples| == c.n && (c.k < c.n ==> Linkage.UnrestrictedDraws(c.n, c.k, rnd.samples)))
    && (c.linkage == SeparableLinks && c.k > 0 ==>
         Separable.BlockDraws(Separable.ChunksFrom(Range(0, c.n), 0, 2 * c.k), c.k, rnd.blockSamples))
    && (c.arrangement == Scatter ==> IsPermutation(rnd.ordering, c.n))
    && ValidChoice(rnd.choice)
  }

  /** `epistasis(N, K)`. */
  function Links(c: MetaClass, rnd: Generator.Randomness): Result<Adjacency>
    requires ValidRandomness(c, rnd)
  {
    match c.linkage
    case NearestNeighborLinks => Ok(Linkage.NearestNeighbor(c.n, c.k))
    case UnrestrictedLinks => Linkage.Unrestricted(c.n, c.k, rnd.samples)
    case SeparableLinks =>
      if c.k == 0 then (if c.n > 0 then Err(ZeroDivision) else Ok([]))
      else Ok(Separable.SeparableRows(Separable.ChunksFrom(Range(0, c.n), 0, 2 * c.k), rnd.blockSamples))
  }

  method Link(c: MetaClass, rnd: Generator.Randomness) returns (r: Result<Adjacency>)
    requires ValidRandomness(c, rnd)
    ensures r == Links(c, rnd)
  {
    match c.linkage {
      case NearestNeighborLinks =>
        r := Ok(Linkage.NearestNeighbor(c.n, c.k));
      case UnrestrictedLinks =>
        r := Linkage.Unrestricted(c.n, c.k, rnd.samples);
      case SeparableLinks =>
        r := Separable.Separable(c.n, c.k, rnd.blockSamples);
        if c.k == 0 && c.n == 0 {
          assert r.Ok? && |r.value| == 0;
        }
    }
  }

  /** Every linkage here yields exactly N rows, row `i` headed by `i`, all entries below N;
      that is what lets the N table rows line up with them. */
  lemma LinksRows(c: MetaClass, rnd: Generator.Randomness)
    requires ValidRandomness(c, rnd) && Links(c, rnd).Ok?
    ensures var adj := Links(c, rnd).value;
      |adj| == c.n && InRange(adj, c.n) &&
      forall i :: 0 <= i < c.n ==> |adj[i]| >= 1 && adj[i][0] == i
  {
    match c.linkage {
      case NearestNeighborLinks =>
        Linkage.NearestNeighborWellFormed(c.n, c.k);
      case UnrestrictedLinks =>
      case SeparableLinks =>
        if c.k > 0 {
          Separable.SeparableShape(c.n, c.k, rnd.blockSamples);
        }
    }
  }

  /** `arrangement(N, epistasis(N, K))`. */
  function Adjacency(c: MetaClass, rnd: Generator.Randomness): Result<Adjacency>
    requires ValidRandomness(c, rnd)
  {
    var links :- Links(c, rnd);
    Rearrange(c.arrangement, c.n, links, rnd.ordering)
  }

  /** `[[rng() for _ in range(2 << K)] for _ in range(N)]`, the pool filled by
      `value_levels(number_maker, K)`, which for `PowKValues` holds `2 << K` values. */
  function TableFor(c: MetaClass, rnd: Generator.Randomness): (t: seq<seq<real>>)
    requires ValidChoice(rnd.choice)
    ensures |t| == c.n
    ensures forall r :: 0 <= r < c.n ==> |t[r]| == Shl(2, c.k)
  {
    Table(MakeSampler(c.levels, c.k + 1, rnd.poolDraw), c.n, Shl(2, c.k), rnd.choice, rnd.cellDraw)
  }

  /** A `PowKValues` pool holds `2 << K` values, exactly as many as a table row, and the
      table only holds pool values. */
  lemma PoolMatchesRow(c: MetaClass, rnd: Generator.Randomness)
    requires ValidChoice(rnd.choice) && c.levels == PowKValues
    ensures PoolSize(c.levels, c.k + 1) == Shl(2, c.k)
    ensures |Cells(TableFor(c, rnd))| <= Shl(2, c.k)
  {
    ShlShift(1, c.k);
    PooledTableValues(c.levels, c.k + 1, rnd.poolDraw, c.n, Shl(2, c.k), rnd.choice, rnd.cellDraw);
  }

  /** `N * N / eval_const` under Python 2, where `/` on integers rounds down. */
  function Budget(n: nat, evalConst: nat): nat
    requires evalConst > 0
  {
    n * n / evalConst
  }

  /** The newer generator doubles the budget: its `2 * N * N // eval_const` is twice this
      one, or one more than twice when the halved division leaves a remainder of at least
      half the divisor. */
  lemma BudgetDoubled(n: nat, evalConst: nat)
    requires evalConst > 0
    ensures Generator.Budget(n, evalConst) == 2 * Budget(n, evalConst) ||
            Generator.Budget(n, evalConst) == 2 * Budget(n, evalConst) + 1
  {
    var q, r := n * n / evalConst, n * n % evalConst;
    assert n * n == q * evalConst + r;
    assert 2 * n * n == 2 * q * evalConst + 2 * r;
    if 2 * r < evalConst {
      DivOf(2 * n * n, evalConst, 2 * q, 2 * r);
    } else {
      DivOf(2 * n * n, evalConst, 2 * q + 1, 2 * r - evalConst);
    }
  }

  lemma DivOf(x: nat, d: nat, q: nat, r: nat)
    requires d > 0 && r < d && x == q * d + r
    ensures x / d == q
  {
    var q' := x / d;
    assert d * q' <= x < d * (q' + 1);
    assert d * q <= x < d * (q + 1);
    Mesh.MulLessCancel(d, q, q' + 1);
    Mesh.MulLessCancel(d, q', q + 1);
  }

  /** The header line: N zero-padded to three digits, the budget zero-padded to six, then K
      in plain decimal, separated by spaces. */
  function HeaderLine(n: nat, budget: nat, k: nat): string {
    Join(' ', [ZeroPad(n, 3), ZeroPad(budget, 6), Decimal(k)])
  }

  /** The header holds three digit fields that read back as N, the budget and K. */
  lemma HeaderFields(n: nat, budget: nat, k: nat)
    ensures var fields := Split(' ', HeaderLine(n, budget, k));
      && |fields| == 3
      && (forall t :: 0 <= t < 3 ==> AllDigits(fields[t]))
      && ParseDecimal(fields[0]) == n && |fields[0]| >= 3
      && ParseDecimal(fields[1]) == budget && |fields[1]| >= 6
      && ParseDecimal(fields[2]) == k
    ensures '\n' !in HeaderLine(n, budget, k)
  {
    var fields := [ZeroPad(n, 3), ZeroPad(budget, 6), Decimal(k)];
    ZeroPadFacts(n, 3);
    ZeroPadFacts(budget, 6);
    DecimalRoundTrip(k);
    DigitFields(fields);
  }

  /** The instance text, or the exception raised: the linkage's own error, or a
      ZeroDivisionError when `eval_const` is zero. There is no first row to look at, so
      N = 0 is no error here. */
  function InstanceText(c: MetaClass, rnd: Generator.Randomness, fmt: real -> string): Result<string>
    requires ValidRandomness(c, rnd)
  {
    var adj :- Adjacency(c, rnd);
    TextFor(c, adj, rnd, fmt)
  }

  /** What `Create_Instance` returns once the adjacency is built. */
  function TextFor(c: MetaClass, adj: Adjacency, rnd: Generator.Randomness, fmt: real -> string): Result<string>
    requires ValidChoice(rnd.choice)
  {
    if c.evalConst == 0 then Err(ZeroDivision)
    else
      var table := TableFor(c, rnd);
      Ok(HeaderLine(c.n, Budget(c.n, c.evalConst), c.k) + "\n" + Body(adj, table, fmt, Zipped(adj, table)))
  }

  /** `arrangement(N, epistasis(N, K))`, the linkage model's loops included. */
  method Arranged(c: MetaClass, rnd: Generator.Randomness) returns (r: Result<Adjacency>)
    requires ValidRandomness(c, rnd)
    ensures r == Adjacency(c, rnd)
  {
    var links := Link(c, rnd);
    if links.Err? {
      return Err(links.error);
    }
    r := Rearrange(c.arrangement, c.n, links.value, rnd.ordering);
  }

  /** The rest of `Create_Instance` once the adjacency is built: the table, the header
      and the `result +=` loop. */
  method Write(c: MetaClass, adjacency: Adjacency, rnd: Generator.Randomness, fmt: real -> string)
    returns (r: Result<string>)
    requires ValidChoice(rnd.choice)
    ensures r == TextFor(c, adjacency, rnd, fmt)
  {
    var rng := MakeSampler(c.levels, c.k + 1, rnd.poolDraw);
    var table := Table(rng, c.n, Shl(2, c.k), rnd.choice, rnd.cellDraw);
    assert table == TableFor(c, rnd);
    if c.evalConst == 0 {
      return Err(ZeroDivision);
    }
    var header := HeaderLine(c.n, Budget(c.n, c.evalConst), c.k) + "\n";
    var text := Render(header, adjacency, table, fmt);
    return Ok(text);
  }

  /** `Create_Instance(N, K, eval_const, epistasis, arrangement, number_maker, value_levels)`. */
  method CreateInstance(c: MetaClass, rnd: Generator.Randomness, fmt: real -> string) returns (r: Result<string>)
    requires ValidRandomness(c, rnd)
    ensures r == InstanceText(c, rnd, fmt)
  {
    var arranged := Arranged(c, rnd);
    if arranged.Err? {
      return Err(arranged.error);
    }
    r := Write(c, arranged.value, rnd, fmt);
  }

  /** A class within `Create_Class`'s ranges always yields an instance. */
  lemma ValidClassSucceeds(c: MetaClass, rnd: Generator.Randomness, fmt: real -> string)
    requires ValidClass(c) && ValidRandomness(c, rnd)
    ensures InstanceText(c, rnd, fmt).Ok?
  {
    assert Links(c, rnd).Ok?;
    LinksRows(c, rnd);
    RearrangeShape(c.arrangement, c.n, Links(c, rnd).value, rnd.ordering);
  }

  /** The text is the header and exactly N lines, one per variable: line `i` holds the
      indices of adjacency row `i` followed by the `2 << K` values of table row `i`. */
  lemma InstanceLayout(c: MetaClass, rnd: Generator.Randomness, fmt: real -> string)
    requires ValidRandomness(c, rnd) && ValidFormat(fmt)
    requires InstanceText(c, rnd, fmt).Ok?
    ensures var adj := Adjacency(c, rnd).value;
      var table := TableFor(c, rnd);
      var lines := Split('\n', InstanceText(c, rnd, fmt).value);
      && |adj| == c.n && |table| == c.n && c.evalConst > 0
      && (forall r :: 0 <= r < c.n ==> |table[r]| == Shl(2, c.k))
      && lines == [HeaderLine(c.n, Budget(c.n, c.evalConst), c.k)] + Lines(adj, table, fmt, c.n) + [[]]
      && (forall i :: 0 <= i < c.n ==>
            Split(' ', lines[i + 1]) == IndexTokens(adj[i]) + ValueTokens(table[i], fmt))
  {
    InstanceTextParts(c, rnd, fmt);
    var adj := Adjacency(c, rnd).value;
    var table := TableFor(c, rnd);
    var header := HeaderLine(c.n, Budget(c.n, c.evalConst), c.k);
    ShlPositive(2, c.k);
    HeaderFields(c.n, Budget(c.n, c.evalConst), c.k);
    TextLayout(header, adj, table, fmt, c.n);
  }

  /** When the text exists, it is the header line followed by the N rendered rows, each
      of them non-empty. */
  lemma InstanceTextParts(c: MetaClass, rnd: Generator.Randomness, fmt: real -> string)
    requires ValidRandomness(c, rnd) && InstanceText(c, rnd, fmt).Ok?
    ensures Adjacency(c, rnd).Ok?
    ensures var adj := Adjacency(c, rnd).value;
      && |adj| == c.n && c.evalConst > 0 && (forall g :: 0 <= g < |adj| ==> |adj[g]| >= 1)
      && InstanceText(c, rnd, fmt).value ==
         HeaderLine(c.n, Budget(c.n, c.evalConst), c.k) + "\n" + Body(adj, TableFor(c, rnd), fmt, c.n)
  {
    LinksRows(c, rnd);
    RearrangeShape(c.arrangement, c.n, Links(c, rnd).value, rnd.ordering);
  }
}
