/** The separable linkage model: the genome is cut into contiguous blocks of about
    `2 * K` variables, and each variable links only to members of its own block. */
module Separable {
  import opened Indices
  import opened Outcomes

  function Min(a: nat, b: nat): nat {
    if a <= b then a else b
  }

  // ---------------------------------------------------------------- chunks

  /** The length `chunks` asks for when `remaining` elements are left: one more than
      `size` when they do not split evenly into `size`-sized groups. */
  function Step(remaining: int, size: nat): (r: nat)
    requires size > 0
    ensures r == size || r == size + 1
  {
    if remaining % size != 0 then size + 1 else size
  }

  /** The blocks `chunks(data, size)` still yields once its cursor has reached `start`;
      the last slice is cut short at the end of `data`. */
  function ChunksFrom(data: seq<nat>, start: nat, size: nat): seq<seq<nat>>
    requires size > 0
    decreases |data| - start
  {
    if start >= |data| then []
    else
      var step := Step(|data| - start, size);
      [data[start..Min(start + step, |data|)]] + ChunksFrom(data, start + step, size)
  }

  /** The generator `chunks(data, size)`, collected into a list. */
  method Chunks(data: seq<nat>, size: nat) returns (blocks: seq<seq<nat>>)
    requires size > 0
    ensures blocks == ChunksFrom(data, 0, size)
  {
    var start := 0;
    blocks := [];
    while start < |data|
      invariant blocks + ChunksFrom(data, start, size) == ChunksFrom(data, 0, size)
      decreases |data| - start
    {
      var step := if (|data| - start) % size != 0 then size + 1 else size;
      var stop := if start + step <= |data| then start + step else |data|;
      assert ChunksFrom(data, start, size) == [data[start..stop]] + ChunksFrom(data, start + step, size);
      blocks := blocks + [data[start..stop]];
      start := start + step;
    }
  }

  /** The blocks laid end to end give back exactly the data that was chunked, in order. */
  lemma {:induction false} ChunksCover(data: seq<nat>, start: nat, size: nat)
    requires size > 0 && start <= |data|
    ensures Flatten(ChunksFrom(data, start, size)) == data[start..]
    decreases |data| - start
  {
    if start < |data| {
      var step := Step(|data| - start, size);
      var stop := Min(start + step, |data|);
      var blocks, rest := ChunksFrom(data, start, size), ChunksFrom(data, start + step, size);
      assert blocks == [data[start..stop]] + rest;
      assert blocks[0] == data[start..stop] && blocks[1..] == rest;
      assert Flatten(blocks) == data[start..stop] + Flatten(rest);
      if start + step <= |data| {
        ChunksCover(data, start + step, size);
        assert data[start..] == data[start..stop] + data[stop..];
      } else {
        assert rest == [] && stop == |data|;
      }
    }
  }

  /** Every block is non-empty and holds at most `size + 1` elements. */
  lemma {:induction false} ChunkSizes(data: seq<nat>, start: nat, size: nat)
    requires size > 0
    ensures var blocks := ChunksFrom(data, start, size);
      forall b :: 0 <= b < |blocks| ==> 1 <= |blocks[b]| <= size + 1
    decreases |data| - start
  {
    if start < |data| {
      var step := Step(|data| - start, size);
      ChunkSizes(data, start + step, size);
      var blocks := ChunksFrom(data, start, size);
      assert blocks[1..] == ChunksFrom(data, start + step, size);
      forall b | 1 <= b < |blocks| ensures blocks[b] == blocks[1..][b - 1] {
      }
    }
  }

  lemma FlattenPrefixCons(x: seq<nat>, rest: seq<seq<nat>>, b: nat)
    requires 1 <= b <= |rest| + 1
    ensures Flatten(([x] + rest)[..b]) == x + Flatten(rest[..b - 1])
  {
    assert ([x] + rest)[..b] == [x] + rest[..b - 1];
    assert Flatten([x] + rest[..b - 1]) == x + Flatten(rest[..b - 1]);
  }

  /** Each block but the last has exactly `Step` of the elements still left before it:
      `size` when they split evenly into `size`-sized groups, `size + 1` otherwise. */
  lemma ChunkSteps(data: seq<nat>, start: nat, size: nat)
    requires size > 0 && start <= |data|
    ensures var blocks := ChunksFrom(data, start, size);
      forall b :: 0 <= b < |blocks| - 1 ==>
        |blocks[b]| == Step(|data| - start - |Flatten(blocks[..b])|, size)
  {
    forall b | 0 <= b < |ChunksFrom(data, start, size)| - 1 {
      ChunkStepAt(data, start, size, b);
    }
  }

  /** Block `b`, when another block follows it, is one `Step` long. */
  lemma {:induction false} ChunkStepAt(data: seq<nat>, start: nat, size: nat, b: nat)
    requires size > 0 && start <= |data|
    requires b < |ChunksFrom(data, start, size)| - 1
    ensures |ChunksFrom(data, start, size)[b]| ==
      Step(|data| - start - |Flatten(ChunksFrom(data, start, size)[..b])|, size)
    decreases b
  {
    var blocks := ChunksFrom(data, start, size);
    var step := Step(|data| - start, size);
    var rest := ChunksFrom(data, start + step, size);
    assert blocks == [data[start..Min(start + step, |data|)]] + rest;
    assert rest != [];
    assert start + step < |data|;
    if b == 0 {
      assert Flatten(blocks[..0]) == [];
    } else {
      ChunkShift(data, start, size, b);
      ChunkStepAt(data, start + step, size, b - 1);
    }
  }

  /** The last block is the rest of `data` after the blocks before it, and that is never
      more than the step the loop computed for it: it falls short of `size` exactly when
      fewer than `size` elements were left. */
  lemma LastChunk(data: seq<nat>, start: nat, size: nat)
    requires size > 0 && start <= |data|
    ensures var blocks := ChunksFrom(data, start, size);
      blocks != [] ==>
        && start + |Flatten(blocks[..|blocks| - 1])| <= |data|
        && blocks[|blocks| - 1] == data[start + |Flatten(blocks[..|blocks| - 1])|..]
        && |blocks[|blocks| - 1]| <= Step(|blocks[|blocks| - 1]|, size)
  {
    var blocks := ChunksFrom(data, start, size);
    ChunksCover(data, start, size);
    LastChunkFits(data, start, size);
    if blocks != [] {
      var front, last := blocks[..|blocks| - 1], blocks[|blocks| - 1];
      assert blocks == front + [last];
      FlattenAppend(front, [last]);
      assert Flatten([last]) == last + Flatten([]);
      assert data[start..] == Flatten(front) + last;
    }
  }

  /** The last block is no longer than one step for its own length. */
  lemma {:induction false} LastChunkFits(data: seq<nat>, start: nat, size: nat)
    requires size > 0 && start <= |data|
    ensures var blocks := ChunksFrom(data, start, size);
      blocks != [] ==> |blocks[|blocks| - 1]| <= Step(|blocks[|blocks| - 1]|, size)
    decreases |data| - start
  {
    if start < |data| {
      var step := Step(|data| - start, size);
      var stop := Min(start + step, |data|);
      var blocks, rest := ChunksFrom(data, start, size), ChunksFrom(data, start + step, size);
      assert blocks == [data[start..stop]] + rest;
      if rest != [] {
        assert start + step < |data|;
        LastChunkFits(data, start + step, size);
        assert blocks[|blocks| - 1] == rest[|rest| - 1];
      } else {
        assert |blocks[0]| == stop - start == |data| - start <= step;
      }
    }
  }

  /** Block `b >= 1` from `start` is block `b - 1` from the next cursor, with the same
      number of elements left before it. */
  lemma ChunkShift(data: seq<nat>, start: nat, size: nat, b: nat)
    requires size > 0 && start < |data|
    requires start + Step(|data| - start, size) <= |data|
    requires 1 <= b < |ChunksFrom(data, start, size)|
    ensures var step := Step(|data| - start, size);
      var blocks, rest := ChunksFrom(data, start, size), ChunksFrom(data, start + step, size);
      && |rest| == |blocks| - 1
      && blocks[b] == rest[b - 1]
      && |data| - start - |Flatten(blocks[..b])| == |data| - (start + step) - |Flatten(rest[..b - 1])|
  {
    var step := Step(|data| - start, size);
    var blocks, rest := ChunksFrom(data, start, size), ChunksFrom(data, start + step, size);
    assert blocks == [data[start..start + step]] + rest;
    FlattenPrefixCons(blocks[0], rest, b);
  }

  /** Every block but the last holds at least `size` elements. */
  lemma OnlyLastBlockShort(data: seq<nat>, size: nat)
    requires size > 0
    ensures var blocks := ChunksFrom(data, 0, size);
      forall b :: 0 <= b < |blocks| - 1 ==> |blocks[b]| >= size
  {
    ChunkSteps(data, 0, size);
  }

  // ---------------------------------------------------------------- rows

  function Members(s: seq<nat>): (r: set<nat>)
    ensures forall x :: x in r <==> x in s
  {
    set x | x in s
  }

  /** The samples `Separable` can draw: for member `t` of block `b`, `min(k, |block| - 1)`
      distinct other members of the same block. */
  predicate BlockDraws(blocks: seq<seq<nat>>, k: nat, draws: seq<seq<seq<nat>>>) {
    && |draws| == |blocks|
    && forall b :: 0 <= b < |blocks| ==>
         && |draws[b]| == |blocks[b]|
         && forall t :: 0 <= t < |blocks[b]| ==>
              IsSample(draws[b][t], Members(blocks[b]) - {blocks[b][t]}, Min(k, |blocks[b]| - 1))
  }

  /** The rows one block contributes: each member followed by its sample. */
  function BlockRows(block: seq<nat>, draws: seq<seq<nat>>): (rows: Adjacency)
    requires |draws| == |block|
    ensures |rows| == |block|
  {
    seq(|block|, t requires 0 <= t < |block| => [block[t]] + draws[t])
  }

  /** The rows of all blocks, block by block. */
  function SeparableRows(blocks: seq<seq<nat>>, draws: seq<seq<seq<nat>>>): Adjacency
    requires |draws| == |blocks|
    requires forall b :: 0 <= b < |blocks| ==> |draws[b]| == |blocks[b]|
  {
    if blocks == [] then [] else BlockRows(blocks[0], draws[0]) + SeparableRows(blocks[1..], draws[1..])
  }

  lemma {:induction false} SeparableRowsAppend(blocks: seq<seq<nat>>, draws: seq<seq<seq<nat>>>, block: seq<nat>, d: seq<seq<nat>>)
    requires |draws| == |blocks| && |d| == |block|
    requires forall b :: 0 <= b < |blocks| ==> |draws[b]| == |blocks[b]|
    ensures SeparableRows(blocks + [block], draws + [d]) == SeparableRows(blocks, draws) + BlockRows(block, d)
  {
    if blocks == [] {
      assert SeparableRows([block], [d]) == BlockRows(block, d) + SeparableRows([], []);
    } else {
      assert (blocks + [block])[1..] == blocks[1..] + [block];
      assert (draws + [d])[1..] == draws[1..] + [d];
      SeparableRowsAppend(blocks[1..], draws[1..], block, d);
    }
  }

  lemma {:induction false} SeparableRowsLength(blocks: seq<seq<nat>>, draws: seq<seq<seq<nat>>>)
    requires |draws| == |blocks|
    requires forall b :: 0 <= b < |blocks| ==> |draws[b]| == |blocks[b]|
    ensures |SeparableRows(blocks, draws)| == |Flatten(blocks)|
  {
    if blocks != [] {
      SeparableRowsLength(blocks[1..], draws[1..]);
    }
  }

  lemma BlockDrawsTail(blocks: seq<seq<nat>>, k: nat, draws: seq<seq<seq<nat>>>)
    requires BlockDraws(blocks, k, draws) && blocks != []
    ensures BlockDraws(blocks[1..], k, draws[1..])
  {
    forall b | 0 <= b < |blocks| - 1
      ensures blocks[1..][b] == blocks[b + 1] && draws[1..][b] == draws[b + 1]
    {
    }
  }

  lemma BlockDrawsPrefix(blocks: seq<seq<nat>>, k: nat, draws: seq<seq<seq<nat>>>, m: nat)
    requires BlockDraws(blocks, k, draws) && m <= |blocks|
    ensures BlockDraws(blocks[..m], k, draws[..m])
  {
    forall b | 0 <= b < m
      ensures blocks[..m][b] == blocks[b] && draws[..m][b] == draws[b]
    {
    }
  }

  /** Row `g` is headed by the `g`-th chunked element, is free of repeats, uses only
      chunked elements, and has between 1 and `k + 1` entries: exactly `k + 1` when
      every block has more than `k` members. */
  lemma {:induction false} SeparableRowAt(blocks: seq<seq<nat>>, k: nat, draws: seq<seq<seq<nat>>>, g: nat)
    requires BlockDraws(blocks, k, draws)
    requires g < |Flatten(blocks)|
    ensures |SeparableRows(blocks, draws)| == |Flatten(blocks)|
    ensures var row := SeparableRows(blocks, draws)[g];
      && 1 <= |row| <= k + 1
      && row[0] == Flatten(blocks)[g]
      && Distinct(row)
      && (forall a :: 0 <= a < |row| ==> row[a] in Flatten(blocks))
      && ((forall b :: 0 <= b < |blocks| ==> |blocks[b]| > k) ==> |row| == k + 1)
  {
    SeparableRowsLength(blocks, draws);
    var head := BlockRows(blocks[0], draws[0]);
    var rest := SeparableRows(blocks[1..], draws[1..]);
    var rows := SeparableRows(blocks, draws);
    assert rows == head + rest;
    assert Flatten(blocks) == blocks[0] + Flatten(blocks[1..]);
    if g < |head| {
      var x, d := blocks[0][g], draws[0][g];
      assert rows[g] == [x] + d;
      ConsDistinct(x, d);
      forall a | 0 <= a < |rows[g]| ensures rows[g][a] in Flatten(blocks) {
        if a > 0 {
          assert rows[g][a] == d[a - 1];
        }
      }
    } else {
      BlockDrawsTail(blocks, k, draws);
      SeparableRowAt(blocks[1..], k, draws[1..], g - |head|);
      assert rows[g] == rest[g - |head|];
      assert Flatten(blocks)[g] == Flatten(blocks[1..])[g - |head|];
      assert forall b :: 0 <= b < |blocks| - 1 ==> blocks[1..][b] == blocks[b + 1];
    }
  }

  lemma {:induction false} SeparableRowsConcat(b1: seq<seq<nat>>, d1: seq<seq<seq<nat>>>, b2: seq<seq<nat>>, d2: seq<seq<seq<nat>>>)
    requires |d1| == |b1| && forall b :: 0 <= b < |b1| ==> |d1[b]| == |b1[b]|
    requires |d2| == |b2| && forall b :: 0 <= b < |b2| ==> |d2[b]| == |b2[b]|
    ensures SeparableRows(b1 + b2, d1 + d2) == SeparableRows(b1, d1) + SeparableRows(b2, d2)
    decreases |b1|
  {
    if b1 == [] {
      assert b1 + b2 == b2 && d1 + d2 == d2;
    } else {
      assert (b1 + b2)[0] == b1[0] && (d1 + d2)[0] == d1[0];
      assert (b1 + b2)[1..] == b1[1..] + b2 && (d1 + d2)[1..] == d1[1..] + d2;
      SeparableRowsConcat(b1[1..], d1[1..], b2, d2);
    }
  }

  /** Every variable's row stays inside its own block: the row of member `t` of block `b`
      sits at position `|Flatten(blocks[..b])| + t`, is headed by that member, and goes on
      with `min(k, |block| - 1)` other members of the same block. */
  ghost predicate LinksWithinBlocks(rows: Adjacency, blocks: seq<seq<nat>>, k: nat) {
    forall b, t :: 0 <= b < |blocks| && 0 <= t < |blocks[b]| ==>
      var g := |Flatten(blocks[..b])| + t;
      && g < |rows|
      && |rows[g]| == 1 + Min(k, |blocks[b]| - 1)
      && rows[g][0] == blocks[b][t]
      && forall a :: 1 <= a < |rows[g]| ==> rows[g][a] in blocks[b] && rows[g][a] != blocks[b][t]
  }

  /** The row of member `t` of block `b` is that member followed by its sample, drawn from
      the rest of the block. */
  lemma RowInBlock(blocks: seq<seq<nat>>, k: nat, draws: seq<seq<seq<nat>>>, b: nat, t: nat)
    requires BlockDraws(blocks, k, draws) && b < |blocks| && t < |blocks[b]|
    ensures |Flatten(blocks[..b])| + t < |SeparableRows(blocks, draws)|
    ensures var row := SeparableRows(blocks, draws)[|Flatten(blocks[..b])| + t];
      && row == [blocks[b][t]] + draws[b][t]
      && |row| == 1 + Min(k, |blocks[b]| - 1)
      && forall a :: 1 <= a < |row| ==> row[a] in blocks[b] && row[a] != blocks[b][t]
  {
    RowAtOffset(blocks, draws, b, t);
    SampledRow(blocks[b], t, draws[b][t], k);
  }

  /** The row of member `t` of block `b` comes after the rows of the blocks before it. */
  lemma RowAtOffset(blocks: seq<seq<nat>>, draws: seq<seq<seq<nat>>>, b: nat, t: nat)
    requires |draws| == |blocks| && forall j :: 0 <= j < |blocks| ==> |draws[j]| == |blocks[j]|
    requires b < |blocks| && t < |blocks[b]|
    ensures |Flatten(blocks[..b])| + t < |SeparableRows(blocks, draws)|
    ensures SeparableRows(blocks, draws)[|Flatten(blocks[..b])| + t] == [blocks[b][t]] + draws[b][t]
  {
    var front, back := blocks[..b], blocks[b..];
    var df, db := draws[..b], draws[b..];
    assert blocks == front + back && draws == df + db;
    assert back[0] == blocks[b] && db[0] == draws[b];
    RowAfter(front, df, back, db, t);
  }

  /** `RowAtOffset` with the blocks already split at the block that holds the row. */
  lemma RowAfter(front: seq<seq<nat>>, df: seq<seq<seq<nat>>>, back: seq<seq<nat>>, db: seq<seq<seq<nat>>>, t: nat)
    requires |df| == |front| && forall j :: 0 <= j < |front| ==> |df[j]| == |front[j]|
    requires |db| == |back| && forall j :: 0 <= j < |back| ==> |db[j]| == |back[j]|
    requires back != [] && t < |back[0]|
    ensures |Flatten(front)| + t < |SeparableRows(front + back, df + db)|
    ensures SeparableRows(front + back, df + db)[|Flatten(front)| + t] == [back[0][t]] + db[0][t]
  {
    SeparableRowsConcat(front, df, back, db);
    SeparableRowsLength(front, df);
    FirstBlockRow(back, db, t);
  }

  /** A member followed by its sample from the rest of its block. */
  lemma SampledRow(block: seq<nat>, t: nat, d: seq<nat>, k: nat)
    requires t < |block| && IsSample(d, Members(block) - {block[t]}, Min(k, |block| - 1))
    ensures var row := [block[t]] + d;
      && |row| == 1 + Min(k, |block| - 1)
      && forall a :: 1 <= a < |row| ==> row[a] in block && row[a] != block[t]
  {
    var row := [block[t]] + d;
    forall a | 1 <= a < |row| ensures row[a] in block && row[a] != block[t] {
      assert row[a] == d[a - 1];
    }
  }

  lemma FirstBlockRow(blocks: seq<seq<nat>>, draws: seq<seq<seq<nat>>>, t: nat)
    requires |draws| == |blocks| && forall b :: 0 <= b < |blocks| ==> |draws[b]| == |blocks[b]|
    requires blocks != [] && t < |blocks[0]|
    ensures t < |SeparableRows(blocks, draws)|
    ensures SeparableRows(blocks, draws)[t] == [blocks[0][t]] + draws[0][t]
  {
    var head := BlockRows(blocks[0], draws[0]);
    assert SeparableRows(blocks, draws) == head + SeparableRows(blocks[1..], draws[1..]);
    assert head[t] == [blocks[0][t]] + draws[0][t];
  }

  /** `LinksWithinBlocks` holds for the rows of any blocks and draws. */
  lemma RowsWithinBlocks(blocks: seq<seq<nat>>, k: nat, draws: seq<seq<seq<nat>>>)
    requires BlockDraws(blocks, k, draws)
    ensures LinksWithinBlocks(SeparableRows(blocks, draws), blocks, k)
  {
    forall b, t | 0 <= b < |blocks| && 0 <= t < |blocks[b]|
      ensures var g := |Flatten(blocks[..b])| + t;
        && g < |SeparableRows(blocks, draws)|
        && |SeparableRows(blocks, draws)[g]| == 1 + Min(k, |blocks[b]| - 1)
        && SeparableRows(blocks, draws)[g][0] == blocks[b][t]
        && forall a :: 1 <= a < |SeparableRows(blocks, draws)[g]| ==>
             SeparableRows(blocks, draws)[g][a] in blocks[b] && SeparableRows(blocks, draws)[g][a] != blocks[b][t]
    {
      RowInBlock(blocks, k, draws, b, t);
    }
  }

  // ---------------------------------------------------------------- Separable

  /** `Separable(N, K)`: chunk `range(N)` into blocks of about `2 * K` and link each
      variable to `min(K, |block| - 1)` others of its block; `draws[b][t]` is the sample
      drawn for member `t` of block `b`. With `K = 0` the block size is zero and the
      first `%` divides by zero, unless there is nothing to chunk. */
  method Separable(n: nat, k: nat, draws: seq<seq<seq<nat>>>) returns (r: Result<Adjacency>)
    requires k > 0 ==> BlockDraws(ChunksFrom(Range(0, n), 0, 2 * k), k, draws)
    ensures r.Err? <==> k == 0 && n > 0
    ensures r.Err? ==> r.error == ZeroDivision
    ensures r.Ok? ==> |r.value| == n && WellFormed(r.value, n)
    ensures r.Ok? ==> forall i :: 0 <= i < n ==> 1 <= |r.value[i]| <= k + 1 && r.value[i][0] == i
    ensures r.Ok? && k > 0 ==> LinksWithinBlocks(r.value, ChunksFrom(Range(0, n), 0, 2 * k), k)
    ensures k > 0 ==> r == Ok(SeparableRows(ChunksFrom(Range(0, n), 0, 2 * k), draws))
  {
    if k == 0 {
      if n > 0 {
        return Err(ZeroDivision);
      }
      return Ok([]);
    }
    var blocks := Chunks(Range(0, n), 2 * k);
    var parts: Adjacency := [];
    for b := 0 to |blocks|
      invariant parts == SeparableRows(blocks[..b], draws[..b])
    {
      var chunk := blocks[b];
      SeparableRowsAppend(blocks[..b], draws[..b], chunk, draws[b]);
      assert blocks[..b + 1] == blocks[..b] + [chunk];
      assert draws[..b + 1] == draws[..b] + [draws[b]];
      parts := parts + seq(|chunk|, t requires 0 <= t < |chunk| => [chunk[t]] + draws[b][t]);
    }
    assert blocks[..|blocks|] == blocks && draws[..|blocks|] == draws;
    SeparableShape(n, k, draws);
    return Ok(parts);
  }

  /** One row per variable, in order: row `i` is headed by `i`, holds between 1 and
      `k + 1` distinct variables, all below `n`, and links only to other members of the
      block that holds `i`. */
  lemma SeparableShape(n: nat, k: nat, draws: seq<seq<seq<nat>>>)
    requires k > 0
    requires BlockDraws(ChunksFrom(Range(0, n), 0, 2 * k), k, draws)
    ensures Flatten(ChunksFrom(Range(0, n), 0, 2 * k)) == Range(0, n)
    ensures var rows := SeparableRows(ChunksFrom(Range(0, n), 0, 2 * k), draws);
      && |rows| == n
      && WellFormed(rows, n)
      && (forall i :: 0 <= i < n ==> 1 <= |rows[i]| <= k + 1 && rows[i][0] == i)
      && LinksWithinBlocks(rows, ChunksFrom(Range(0, n), 0, 2 * k), k)
  {
    RowsWithinBlocks(ChunksFrom(Range(0, n), 0, 2 * k), k, draws);
    var blocks := ChunksFrom(Range(0, n), 0, 2 * k);
    var rows := SeparableRows(blocks, draws);
    ChunksCover(Range(0, n), 0, 2 * k);
    RangeMembers(0, n);
    SeparableRowsLength(blocks, draws);
    forall g | 0 <= g < n
      ensures 1 <= |rows[g]| <= k + 1 && rows[g][0] == g
      ensures Distinct(rows[g]) && Below(rows[g], n)
    {
      SeparableRowAt(blocks, k, draws, g);
    }
  }

  /** Rows of variables outside the last block have exactly `k + 1` entries. */
  lemma SeparableFullRows(n: nat, k: nat, draws: seq<seq<seq<nat>>>)
    requires k > 0
    requires BlockDraws(ChunksFrom(Range(0, n), 0, 2 * k), k, draws)
    ensures var blocks := ChunksFrom(Range(0, n), 0, 2 * k);
      var rows := SeparableRows(blocks, draws);
      |rows| == n && (blocks != [] ==> forall g :: 0 <= g < n - |blocks[|blocks| - 1]| ==> |rows[g]| == k + 1)
  {
    ChunksCover(Range(0, n), 0, 2 * k);
    SeparableRowsLength(ChunksFrom(Range(0, n), 0, 2 * k), draws);
    OnlyLastBlockShort(Range(0, n), 2 * k);
    if ChunksFrom(Range(0, n), 0, 2 * k) != [] {
      FrontRowsFull(ChunksFrom(Range(0, n), 0, 2 * k), k, draws);
    }
  }

  /** When every block but the last has more than `k` members, the rows those blocks
      contribute have exactly `k + 1` entries. */
  lemma FrontRowsFull(blocks: seq<seq<nat>>, k: nat, draws: seq<seq<seq<nat>>>)
    requires BlockDraws(blocks, k, draws) && blocks != []
    requires forall b :: 0 <= b < |blocks| - 1 ==> |blocks[b]| > k
    ensures |SeparableRows(blocks, draws)| == |Flatten(blocks)|
    ensures forall g :: 0 <= g < |Flatten(blocks)| - |blocks[|blocks| - 1]| ==>
      |SeparableRows(blocks, draws)[g]| == k + 1
  {
    var m := |blocks| - 1;
    var init, last := blocks[..m], blocks[m];
    assert blocks == init + [last];
    assert draws == draws[..m] + [draws[m]];
    BlockDrawsPrefix(blocks, k, draws, m);
    FlattenAppend(init, [last]);
    assert Flatten([last]) == last + Flatten([]);
    SeparableRowsAppend(init, draws[..m], last, draws[m]);
    SeparableRowsLength(init, draws[..m]);
    SeparableRowsLength(blocks, draws);
    forall g | 0 <= g < |Flatten(init)| ensures |SeparableRows(init, draws[..m])[g]| == k + 1 {
      SeparableRowAt(init, k, draws[..m], g);
    }
  }

  /** N = 7, K = 2: the blocks are 0..4 and a short trailing block 5..6. */
  lemma ShortTrailingBlock()
    ensures ChunksFrom(Range(0, 7), 0, 4) == [[0, 1, 2, 3, 4], [5, 6]]
  {
    var data := Range(0, 7);
    assert Step(7, 4) == 5 && Step(2, 4) == 5;
    assert ChunksFrom(data, 10, 4) == [];
    assert ChunksFrom(data, 5, 4) == [data[5..7]];
    assert data[0..5] == [0, 1, 2, 3, 4] && data[5..7] == [5, 6];
  }

  /** N = 10, K = 2: the nominal block of 4 is widened to 5 twice, covering 0..9 exactly. */
  lemma EvenBlocksExample()
    ensures ChunksFrom(Range(0, 10), 0, 4) == [[0, 1, 2, 3, 4], [5, 6, 7, 8, 9]]
  {
    var data := Range(0, 10);
    assert Step(10, 4) == 5 && Step(5, 4) == 5;
    assert ChunksFrom(data, 10, 4) == [];
    assert ChunksFrom(data, 5, 4) == [data[5..10]];
    assert data[0..5] == [0, 1, 2, 3, 4] && data[5..10] == [5, 6, 7, 8, 9];
  }
}
