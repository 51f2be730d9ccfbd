/** How many distinct values a fitness table may hold. A value-level strategy turns a
    number generator into a sampler: `TwoValues` and `PowKValues` pre-draw a pool and then
    pick from it, `AllUnique` draws afresh for every cell. */
module Values {
  import opened Indices

  datatype Cardinality = TwoValues | PowKValues | AllUnique

  /** A sampler: pick from a pre-drawn pool, or pass the number generator through. */
  datatype Sampler = Pool(options: seq<real>) | Fresh

  /** Python's `x << s` on non-negative integers. */
  function Shl(x: nat, s: nat): nat {
    if s == 0 then x else 2 * Shl(x, s - 1)
  }

  /** `2 << K` and `1 << (K + 1)` are the same number. */
  lemma {:induction false} ShlShift(x: nat, s: nat)
    ensures Shl(2 * x, s) == Shl(x, s + 1)
  {
    if s > 0 {
      ShlShift(x, s - 1);
    }
  }

  /** A table row has `1 << w` entries, one per assignment of its `w` variables; at least one. */
  lemma {:induction false} ShlPositive(x: nat, s: nat)
    requires x > 0
    ensures Shl(x, s) >= x
  {
    if s > 0 {
      ShlPositive(x, s - 1);
    }
  }

  /** The number of values pre-drawn for the pool: 2, `poolWidth` powers of two, or none. */
  function PoolSize(levels: Cardinality, poolWidth: nat): nat {
    match levels
    case TwoValues => 2
    case PowKValues => Shl(1, poolWidth)
    case AllUnique => 0
  }

  /** `value_levels(RNG, width)`: `draw(t)` is the `t`-th number the generator hands out
      while the pool is filled. */
  function MakeSampler(levels: Cardinality, poolWidth: nat, draw: nat -> real): (s: Sampler)
    ensures levels == AllUnique <==> s.Fresh?
    ensures s.Pool? ==> |s.options| == PoolSize(levels, poolWidth) && |s.options| >= 1
    ensures s.Pool? ==> forall t :: 0 <= t < |s.options| ==> s.options[t] == draw(t)
  {
    if levels == AllUnique then Fresh
    else
      ShlPositive(1, poolWidth);
      Pool(seq(PoolSize(levels, poolWidth), t requires 0 <= t => draw(t)))
  }

  /** One call of the sampler: `random.choice(options)` picks the entry `pick`, a `Fresh`
      sampler returns the generator's next number `drawn`. */
  function Draw(s: Sampler, pick: nat, drawn: real): (v: real)
    requires s.Pool? ==> pick < |s.options|
    ensures s.Pool? ==> v in s.options
    ensures s.Fresh? ==> v == drawn
  {
    match s
    case Pool(options) => options[pick]
    case Fresh => drawn
  }

  /** `choice(r, c, size)` is the index `random.choice` picks among `size` options for the
      cell in row `r`, column `c`. */
  ghost predicate ValidChoice(choice: (nat, nat, nat) -> nat) {
    forall r, c, size :: size > 0 ==> choice(r, c, size) < size
  }

  /** `[[rng() for _ in range(width)] for _ in range(rows)]`. */
  function Table(s: Sampler, rows: nat, width: nat, choice: (nat, nat, nat) -> nat, drawn: (nat, nat) -> real)
    : (t: seq<seq<real>>)
    requires ValidChoice(choice)
    requires s.Pool? ==> |s.options| >= 1
    ensures |t| == rows
    ensures forall r :: 0 <= r < rows ==> |t[r]| == width
  {
    seq(rows, r requires 0 <= r => seq(width, c requires 0 <= c => Draw(s, if s.Pool? then choice(r, c, |s.options|) else 0, drawn(r, c))))
  }

  /** The set of distinct values in a table. */
  function Cells(t: seq<seq<real>>): set<real> {
    set r, c | 0 <= r < |t| && 0 <= c < |t[r]| :: t[r][c]
  }

  function Elements(s: seq<real>): set<real> {
    set t | 0 <= t < |s| :: s[t]
  }

  lemma {:induction false} ElementsSize(s: seq<real>)
    ensures |Elements(s)| <= |s|
  {
    if s != [] {
      ElementsSize(s[..|s| - 1]);
      assert Elements(s) == Elements(s[..|s| - 1]) + {s[|s| - 1]};
    }
  }

  /** A pooled table only holds pool values, so `TwoValues` tables hold at most 2 distinct
      values and `PowKValues` tables at most `1 << w`. */
  lemma PooledTableValues(levels: Cardinality, poolWidth: nat, draw: nat -> real, rows: nat, width: nat,
                          choice: (nat, nat, nat) -> nat, drawn: (nat, nat) -> real)
    requires levels != AllUnique && ValidChoice(choice)
    ensures var s := MakeSampler(levels, poolWidth, draw);
      Cells(Table(s, rows, width, choice, drawn)) <= Elements(s.options) &&
      |Cells(Table(s, rows, width, choice, drawn))| <= PoolSize(levels, poolWidth)
  {
    var s := MakeSampler(levels, poolWidth, draw);
    var t := Table(s, rows, width, choice, drawn);
    forall v | v in Cells(t) ensures v in Elements(s.options) {
      var r, c :| 0 <= r < |t| && 0 <= c < |t[r]| && t[r][c] == v;
      var k := choice(r, c, |s.options|);
      assert t[r][c] == s.options[k];
    }
    SubsetSize(Cells(t), Elements(s.options));
    ElementsSize(s.options);
  }

  /** Every value-level strategy keeps the table inside the generator's range: if all
      draws lie in [0, 1], so does every cell. */
  lemma TableInUnitInterval(levels: Cardinality, poolWidth: nat, draw: nat -> real, rows: nat, width: nat,
                            choice: (nat, nat, nat) -> nat, drawn: (nat, nat) -> real)
    requires ValidChoice(choice)
    requires forall t :: 0.0 <= draw(t) <= 1.0
    requires forall r, c :: 0.0 <= drawn(r, c) <= 1.0
    ensures var t := Table(MakeSampler(levels, poolWidth, draw), rows, width, choice, drawn);
      forall r, c :: 0 <= r < rows && 0 <= c < width ==> 0.0 <= t[r][c] <= 1.0
  {
    var s := MakeSampler(levels, poolWidth, draw);
    var t := Table(s, rows, width, choice, drawn);
    forall r, c | 0 <= r < rows && 0 <= c < width ensures 0.0 <= t[r][c] <= 1.0 {
      if s.Pool? {
        assert t[r][c] == s.options[choice(r, c, |s.options|)];
      }
    }
  }
}
