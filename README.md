# NK-landscape benchmark generator and Schulze ranking, modelled in Dafny

This project models two parts of a benchmark suite for black-box optimisers.

**Instance generator.** It covers `ProblemClassGenerator.py` and its older Python 2 copy `MetaNK.py`.

- A problem class has a variable count N, an epistasis K, an evaluation constant, a linkage model, a rearrangement and a value cardinality.
- Instances are made in four steps:
  1. A linkage model builds the adjacency: one row of variable indices per fitness contribution. The models are `NearestNeighbor`, `Unrestricted`, `Separable`, `Mesh` and `SAT_like`.
  2. `Scatter` relabels the variables through a permutation, or `NoChange` leaves them as they are.
  3. A value table is built whose shape follows the adjacency. Its values are drawn through a `TwoValues`, `PowKValues` or `AllUnique` sampler.
  4. `Create_Instance` writes the instance as text: a header with the evaluation budget, then one line per row with zero-padded indices and formatted values.
- Every random call is an explicit input (`Generator.Randomness`):
  - `random.sample` results, constrained by `Indices.IsSample`;
  - the `random.shuffle` permutation;
  - the numbers the value distribution hands out;
  - the indices `random.choice` picks.
- Python exceptions become `Outcomes.Error` values. These are `IndexError` (`IndexOutOfRange`), `ZeroDivisionError` (`ZeroDivision`) and the `ValueError` of an oversized sample (`SampleLargerThanPopulation`).

**Ranking.** It covers `RankEntries.py`.

- `schulze` ranks candidates from ballots with the Schulze method. It:
  1. counts pairwise preferences into the grid `d`;
  2. keeps only the winning side of each pair as the initial strengths `p`;
  3. closes `p` under widest paths with a triple loop;
  4. gives each candidate a rank of one plus the number of matchups it loses;
  5. returns the candidates in a stable sort by rank.
- `convert_problem_to_ballots` turns one problem's competitor results into one ballot per test instance. The best result comes first.
- Candidates are identified by their position in `ballots[0]`, so the dictionaries keyed by candidate pairs become `seq<seq<nat>>` grids.

Module layout:

- `Outcomes` and `Indices`: shared vocabulary.
- Linkage models: `Linkage`, `Separable`, `Mesh`.
- `Rearrangement`.
- `Values`: the samplers and the table.
- `Text` and `Layout`: decimal and zero-padded numbers, joining and splitting, the instance text.
- `Generator`: the newer generator's `Create_Instance`.
- `MetaNK`: what the Python 2 generator does differently. Its linkage, rearrangement and sampler functions are the same as the newer file's up to the argument passed, so they are defined once and reused. The one difference is `PowKValues`: MetaNK.py:62-63 is called with K and draws `2 << K` values, where ProblemClassGenerator.py:141-143 draws `1 << variables_per_row`. The model passes K + 1 for it.
- `Schulze` and `SchulzeExample`: the voting method and its worked 45-ballot example.
- `Ballots`: the ballot builder.

Each loop of the source is a `method` proved against a specification function (`ensures r == Spec(...)`). The properties are then proved as lemmas about that function.

The widest-path closure is characterised without enumerating paths:

- after the loop, every triple satisfies `p[j][k] >= min(p[j][i], p[i][k])` (`ClosedThrough`);
- the result is the least grid that is closed and lies above the initial strengths (`StrongestLeast`).

From these follow:

- the transitivity of the "beats" relation;
- that a beaten candidate always gets a larger rank;
- that a Condorcet winner always comes first.

Behaviour of the code that a reader of its comments might not expect, modelled as written:

- **Separable trailing block.** The comment at ProblemClassGenerator.py:22-23 speaks of blocks of size 2K. The chunking at ProblemClassGenerator.py:24-29 takes a block one element longer only while the remaining length is not divisible by 2K. For N = 7 and K = 2 it leaves a trailing block `[5, 6]` of two variables, shorter than K + 1 (`Separable.ShortTrailingBlock`). The table width is then still taken from row 0 (`Generator.SeparableWidthQuirk`).
- **Unchecked N and K.** The code checks neither N nor K. The model takes any natural N, K and eval_const and produces the errors the code would raise.

## Model

| member | source | states |
|---|---|---|
| Linkage.NearestNeighbor | ProblemClassGenerator.py:10-12 | exactly N rows; row i has K+1 entries and entry j is (i + j) mod N |
| Linkage.NearestNeighborWellFormed | ProblemClassGenerator.py:10-12 | row i starts with i, every entry lies in [0, N), and entries of a row are pairwise distinct whenever K < N |
| Linkage.NearestNeighborExample | ProblemClassGenerator.py:12 | for N = 5, K = 2 row 0 is [0, 1, 2] and row 4 wraps to [4, 0, 1] |
| Linkage.Unrestricted | ProblemClassGenerator.py:15-18 | fails with the oversized-sample error exactly when 0 < N <= K; otherwise N rows, row i is i followed by K distinct variables other than i, all in [0, N) |
| Linkage.SatLike | ProblemClassGenerator.py:76-79 | fails exactly when there is at least one clause and N <= K; otherwise one row per clause, each of K+1 distinct variables in [0, N) |
| Separable.Step | ProblemClassGenerator.py:27 | the block step is the nominal size or one more |
| Separable.Chunks | ProblemClassGenerator.py:24-29 | the `chunks` loop yields exactly the blocks of the recursive block definition |
| Separable.ChunksCover | ProblemClassGenerator.py:24-29 | the blocks concatenate back to the remaining data, in order |
| Separable.ChunkSizes | ProblemClassGenerator.py:26-28 | every block holds between 1 and size+1 elements |
| Separable.ChunkSteps | ProblemClassGenerator.py:27-29 | every non-final block is size+1 long when the count still unassigned is not divisible by size, and size long otherwise |
| Separable.LastChunk | ProblemClassGenerator.py:24-29 | the final block is exactly the data from the cursor after the earlier blocks to the end, and it is no longer than the step the loop computes for that many elements |
| Separable.LastChunkFits | ProblemClassGenerator.py:26-28 | the final slice holds at most one step for its own length |
| Separable.OnlyLastBlockShort | ProblemClassGenerator.py:27-28 | every block but the last has at least size elements |
| Separable.SeparableRowsLength | ProblemClassGenerator.py:31-34 | the accumulated `parts` has one row per element of the blocks |
| Separable.SeparableRowAt | ProblemClassGenerator.py:32-34 | row g starts with its own variable, has 1 to K+1 distinct entries drawn from the blocks, and has exactly K+1 when every block is longer than K |
| Separable.SeparableRowsConcat | ProblemClassGenerator.py:31-35 | the rows of two runs of blocks are the rows of the first run followed by those of the second |
| Separable.RowInBlock | ProblemClassGenerator.py:31-34 | the row of member t of block b sits at the block's offset, is that member followed by its draws, has min(K, block size - 1) links, and links only to other members of the same block |
| Separable.RowsWithinBlocks | ProblemClassGenerator.py:31-35 | every row links only within the block that holds its variable, with min(K, block size - 1) links |
| Separable.Separable | ProblemClassGenerator.py:21-35 | raises ZeroDivisionError exactly when K = 0 and N > 0 (the modulus by size 0); otherwise N well-formed rows, row i starts with i and has 1 to K+1 entries, and for K > 0 every row links only to other members of its own block |
| Separable.SeparableShape | ProblemClassGenerator.py:30-35 | the blocks of range(N) cover it in order; the rows built from them are N distinct-entry rows in [0, N), row i headed by i and linked only to other members of its block |
| Separable.SeparableFullRows | ProblemClassGenerator.py:32-34 | every row outside the last block has exactly K+1 entries |
| Separable.FrontRowsFull | ProblemClassGenerator.py:32-34 | when every block but the last is longer than K, the rows of those blocks have exactly K+1 entries |
| Separable.ShortTrailingBlock | ProblemClassGenerator.py:24-29 | for N = 7, K = 2 the blocks are [0..4] and [5, 6] |
| Separable.EvenBlocksExample | ProblemClassGenerator.py:24-29 | for N = 10, K = 2 the blocks are [0..4] and [5..9] |
| Mesh.Width | ProblemClassGenerator.py:43 | the width is the smallest w with w^(K+1) >= N |
| Mesh.WidthPositive | ProblemClassGenerator.py:43 | the width is at least 1 when N >= 1 |
| Mesh.ToCoordinates | ProblemClassGenerator.py:45-51 | the loop computes the K+1 base-width digits of the value, least significant first |
| Mesh.FromCoordinates | ProblemClassGenerator.py:53-59 | the loop over the reversed coordinates computes the mixed-radix value of the digits |
| Mesh.DigitsBelow | ProblemClassGenerator.py:45-51 | every coordinate is below the width |
| Mesh.DigitsRoundTrip | ProblemClassGenerator.py:45-59 | from_coordinates(to_coordinates(v)) == v for every v < width^(K+1) |
| Mesh.CoordinatesRoundTrip | ProblemClassGenerator.py:45-59 | to_coordinates(from_coordinates(c)) == c for every coordinate list with digits below the width |
| Mesh.FromDigitsBump | ProblemClassGenerator.py:65-67 | raising coordinate d by one raises the index by width^d |
| Mesh.FromDigitsZero | ProblemClassGenerator.py:68-71 | zeroing coordinate d lowers the index by that digit times width^d, so wrapping can only lower the index |
| Mesh.NeighborIndex | ProblemClassGenerator.py:62-71 | the neighbour in dimension d is i + width^d when that is below N and the digit does not overflow, else i minus digit·width^d; it is always below N |
| Mesh.VertexEdges | ProblemClassGenerator.py:63-72 | vertex i contributes K+1 edges, edge d being [i, neighbour of i in dimension d] |
| Mesh.MeshEdgesLayout | ProblemClassGenerator.py:60-73 | the edge list has N·(K+1) entries in (vertex, dimension) order, entry i·(K+1)+d is [i, neighbour], and every edge is a pair of indices in [0, N) |
| Mesh.Mesh | ProblemClassGenerator.py:38-73 | the nested loops produce exactly that edge list, and nothing for N = 0 |
| Mesh.VertexLinks | ProblemClassGenerator.py:63-72 | the inner loop over dimensions yields vertex i's edges, wrapping an overflowing coordinate to 0 |
| Mesh.SelfLoopExample | ProblemClassGenerator.py:68-71 | for N = 5, K = 1 the width is 3 and vertex 2 wraps onto itself in dimension 1 (edge [2, 2]) |
| Mesh.WrapExample | ProblemClassGenerator.py:68-71 | for N = 9, K = 1 vertex 8 wraps to 6 in dimension 0 and to 2 in dimension 1 |
| Rearrangement.ScatterRows | ProblemClassGenerator.py:88-92 | fails with IndexError exactly when some entry is not below N; otherwise keeps the row count and row lengths and maps every entry x to ordering[x] |
| Rearrangement.ScatterInverse | ProblemClassGenerator.py:88-92 | looking each relabelled entry up in the ordering gives back the original adjacency |
| Rearrangement.ScatterWellFormed | ProblemClassGenerator.py:88-92 | rows of distinct in-range entries stay distinct and in range after relabelling |
| Rearrangement.NoChangeRows | ProblemClassGenerator.py:95-97 | the adjacency is returned unchanged |
| Rearrangement.RearrangeShape | ProblemClassGenerator.py:88-97 | either arrangement succeeds on in-range rows, keeps the shape and the range, and keeps well-formed rows well formed |
| Values.MakeSampler | ProblemClassGenerator.py:132-152 | AllUnique is the only sampler without a pool; TwoValues pools 2 draws, PowKValues pools 1 << w draws, and the pool holds the first draws in order |
| Values.Draw | ProblemClassGenerator.py:136-152 | a pooled sampler only returns a member of its pool; AllUnique returns the distribution's own draw |
| Values.Table | ProblemClassGenerator.py:179-180 | the table has the requested rows, each of the requested width |
| Values.PooledTableValues | ProblemClassGenerator.py:132-147 | with a pool, every table cell is a pool value, so the table holds at most 2 (TwoValues) or 1 << w (PowKValues) distinct values |
| Values.TableInUnitInterval | ProblemClassGenerator.py:106-122 | when the distribution's draws lie in [0, 1], so does every table cell |
| Text.Decimal | ProblemClassGenerator.py:181 | a non-negative integer is written as a non-empty string of decimal digits |
| Text.DecimalRoundTrip | ProblemClassGenerator.py:181 | reading the decimal text of n gives n back |
| Text.DecimalCanonical | ProblemClassGenerator.py:181 | every digit string without a leading zero is the decimal text of the number it reads as |
| Text.ZeroPadFacts | ProblemClassGenerator.py:184 | zero padding to a width yields digits only, at least the requested width, exactly that width when the number is shorter, and reads back as the number |
| Text.SplitJoin | ProblemClassGenerator.py:184-185 | splitting a space-joined list of tokens that contain no space gives the tokens back |
| Layout.IndexTokens | ProblemClassGenerator.py:184 | one token per link, the link zero-padded to three digits |
| Layout.IndexTokensRead | ProblemClassGenerator.py:184 | every index token is at least three digits long and reads back as its link |
| Layout.ValueTokens | ProblemClassGenerator.py:185 | one formatted token per table value |
| Layout.Render | ProblemClassGenerator.py:183-186 | the `result +=` loop over `zip(adjacency, table)` appends one line per pair, stopping at the shorter of the two |
| Layout.LineTokens | ProblemClassGenerator.py:184-185 | a row line splits at spaces into exactly its index tokens followed by its value tokens, and holds no newline |
| Layout.BodyLines | ProblemClassGenerator.py:183-186 | the body splits at newlines into one line per row |
| Layout.TextLines | ProblemClassGenerator.py:181-186 | the header line plus body splits at newlines into the header, the row lines and a final empty piece |
| Layout.TextLayout | ProblemClassGenerator.py:181-186 | the text splits into the header line, one line per row, and the empty piece after the final newline |
| Layout.DigitFields | ProblemClassGenerator.py:181-182 | space-joined digit fields split back into the same fields |
| Generator.Link | ProblemClassGenerator.py:175 | running the chosen linkage model gives the linkage result |
| Generator.LinksShape | ProblemClassGenerator.py:10-79 | every linkage result has non-empty rows of indices in [0, N); N rows except Mesh (N·(K+1)) and SAT_like (one per clause); well formed except Mesh and NearestNeighbor with K >= N |
| Generator.TableFor | ProblemClassGenerator.py:176-180 | the table has len(adjacency) rows, each of 1 << len(adjacency[0]) values |
| Generator.Arranged | ProblemClassGenerator.py:175 | the linkage model followed by the rearrangement gives the arranged adjacency or the first error raised |
| Generator.Write | ProblemClassGenerator.py:176-186 | writing an adjacency gives its instance text, or IndexError when the adjacency is empty, or ZeroDivisionError for eval_const 0 |
| Generator.BudgetBounds | ProblemClassGenerator.py:182 | the budget is 2·N·N floor-divided by eval_const |
| Generator.HeaderFields | ProblemClassGenerator.py:181-182 | the header has four digit fields that read back as N (at least 3 digits), the budget (at least 6 digits), the row width and the row count, and holds no newline |
| Generator.CreateInstance | ProblemClassGenerator.py:173-186 | Create_Instance returns the instance text, or the linkage's error, IndexError on an empty adjacency, or ZeroDivisionError for eval_const 0 |
| Generator.ValidClassSucceeds | ProblemClassGenerator.py:161-186 | every class within Create_Class's ranges yields an instance without error |
| Generator.InstanceLayout | ProblemClassGenerator.py:173-186 | a produced instance has len(adjacency) table rows of width 1 << len(adjacency[0]), its text is the header line, one line per row and a final empty piece, and line i+1 splits into row i's index tokens then its value tokens |
| Generator.SeparableWidthQuirk | ProblemClassGenerator.py:177-180 | for N = 7, K = 2 rows 5 and 6 hold 2 variables while every table row has 8 = 1 << 3 values, taken from row 0 |
| MetaNK.Link | MetaNK.py:84 | running the chosen linkage model gives the linkage result |
| MetaNK.LinksRows | MetaNK.py:5-27 | every linkage of this generator yields exactly N rows of indices in [0, N), row i headed by i |
| MetaNK.TableFor | MetaNK.py:85-86 | the table has N rows of 2 << K values |
| MetaNK.Arranged | MetaNK.py:84 | the linkage model followed by the rearrangement gives the arranged adjacency or the first error raised |
| MetaNK.Write | MetaNK.py:85-91 | writing an adjacency gives its instance text, or ZeroDivisionError for eval_const 0 |
| MetaNK.PoolMatchesRow | MetaNK.py:62-66 | the PowKValues pool has 2 << K entries, the table row length, and the table holds at most that many distinct values |
| MetaNK.BudgetDoubled | MetaNK.py:87 | the budget N·N/eval_const (Python 2 floor division) is half the newer generator's, rounded down |
| MetaNK.HeaderFields | MetaNK.py:87 | the header has three digit fields that read back as N (at least 3 digits), the budget (at least 6 digits) and K, and holds no newline |
| MetaNK.CreateInstance | MetaNK.py:83-91 | Create_Instance returns the instance text, or the linkage's error, or ZeroDivisionError for eval_const 0 |
| MetaNK.ValidClassSucceeds | MetaNK.py:73-91 | every class within this Create_Class's ranges yields an instance without error |
| MetaNK.InstanceLayout | MetaNK.py:83-91 | a produced instance has N adjacency rows and N table rows of 2 << K values, its text is the header, one line per row and a final empty piece, and line i+1 splits into row i's tokens |
| Schulze.SupportFacts | RankEntries.py:39-43 | no candidate is preferred over itself, for x ≠ y the two counts add up to the number of ballots, and no count exceeds it |
| Schulze.SupportAppend | RankEntries.py:40-43 | counts over two batches of ballots add up |
| Schulze.PrefersByPosition | RankEntries.py:42 | a ballot counts x over y exactly when x stands earlier on it |
| Schulze.PairwisePreferences | RankEntries.py:37-43 | the nested loops leave d[i][j] equal to the number of ballots ranking candidate i above candidate j |
| Schulze.CountBallot | RankEntries.py:41-43 | one ballot adds one to exactly the pairs it orders |
| Schulze.CountRow | RankEntries.py:41-43 | one ballot's pass over row i adds one in exactly the columns whose candidate it ranks below candidate i |
| Schulze.InitialStrengths | RankEntries.py:46-53 | the loops build the initial strength grid |
| Schulze.InitialFacts | RankEntries.py:46-53 | an initial strength never exceeds the count, is positive only for the majority side, and at most one side of a pair is positive |
| Schulze.WidestPaths | RankEntries.py:54-60 | the triple loop computes all c rounds of relaxation |
| Schulze.RelaxRound | RankEntries.py:54-60 | one round of the outer loop relaxes every pair through intermediate i |
| Schulze.RelaxRow | RankEntries.py:56-60 | the inner loop over k changes row j only, into its relaxed row |
| Schulze.RelaxClosed | RankEntries.py:54-60 | relaxing through i keeps every earlier triangle inequality and adds the ones through i |
| Schulze.StrongestClosed | RankEntries.py:54-60 | afterwards p[j][k] >= min(p[j][i], p[i][k]) for all distinct i, j, k |
| Schulze.StrongestAbove | RankEntries.py:59-60 | the loop never lowers an entry: every final strength is at least the initial one |
| Schulze.StrongestBelow | RankEntries.py:59-60 | the loop never raises an entry above a bound that all initial entries respect |
| Schulze.StrongestLeast | RankEntries.py:54-60 | the result lies below every closed grid above the initial strengths, so it is the widest-path strength |
| Schulze.CountRanks | RankEntries.py:64-70 | the loops give each candidate one plus the number of matchups it loses |
| Schulze.CountLosses | RankEntries.py:66-70 | the inner loop gives one plus the number of candidates that beat candidate i |
| Schulze.RankBounds | RankEntries.py:64-70 | every rank lies in [1, c], and a rank is 1 exactly when the candidate loses no matchup |
| Schulze.BeatsTransitive | RankEntries.py:54-69 | on the closed grid, if a beats b and b beats d then a beats d |
| Schulze.BeatsRankLower | RankEntries.py:62-70 | a candidate that beats another gets a strictly smaller rank |
| Schulze.SortCount | RankEntries.py:71 | sorting keeps each candidate whose rank is in range exactly as often as before |
| Schulze.SortOrdered | RankEntries.py:71 | the sorted candidates have non-decreasing ranks |
| Schulze.SortLevels | RankEntries.py:71 | candidates of equal rank keep their order (stability) |
| Schulze.StableSort | RankEntries.py:71 | the sort is a permutation, ordered by rank, and stable |
| Schulze.LevelEmpty | RankEntries.py:71 | when no candidate holds a rank, no candidate is placed at that rank |
| Schulze.LevelUnique | RankEntries.py:71 | when exactly one candidate holds a rank, it alone is placed at that rank |
| Schulze.Schulze | RankEntries.py:22-71 | schulze returns the candidate ranking, or IndexError when there are no ballots |
| Schulze.RankOrderFacts | RankEntries.py:62-71 | the ordered positions are a permutation of the candidates, with non-decreasing ranks, stable ties, and every beaten candidate after its beater |
| Schulze.RankOrderSorted | RankEntries.py:62-71 | the ordered positions are a permutation of the candidates, ranks do not decrease, and ties keep their original order |
| Schulze.RankOrderBeats | RankEntries.py:62-71 | on a closed strength grid every beaten candidate is placed after its beater |
| Schulze.SchulzeRanking | RankEntries.py:22-71 | the result is a permutation of ballots[0], ordered by rank, with ties in ballots[0] order and every candidate after those that beat it |
| Schulze.CondorcetStrengths | RankEntries.py:46-60 | a candidate winning every pairwise majority ends with positive strength against everyone and zero strength against it |
| Schulze.BeatsAllRanks | RankEntries.py:62-70 | a candidate beating everyone has rank 1 and all others rank at least 2 |
| Schulze.CondorcetWinner | RankEntries.py:22-71 | a candidate winning every pairwise majority comes first in the result |
| SchulzeExample.BallotsProper | RankEntries.py:76-83 | the 45 example ballots are a valid input |
| SchulzeExample.ExamplePreferences | RankEntries.py:37-43 | the example's preference grid is the published one |
| SchulzeExample.ExampleInitial | RankEntries.py:46-53 | the example's initial strengths |
| SchulzeExample.ExampleStrengths | RankEntries.py:54-60 | the example's strongest-path strengths |
| SchulzeExample.ExampleRanks | RankEntries.py:62-70 | the example ranks are A 2, C 3, B 4, E 1, D 5 |
| SchulzeExample.ExampleBeaten | RankEntries.py:62-70 | in the example A loses only to E, C to A and E, B to A, C and E, D to everyone, and E to no one |
| SchulzeExample.ExampleOrder | RankEntries.py:71 | sorting by those ranks gives positions E, A, C, B, D |
| SchulzeExample.ExampleOutcome | RankEntries.py:74-84 | schulze on the 45 ballots returns E, A, C, B, D |
| Ballots.LessOrder | RankEntries.py:103-109 | the tuple comparison is irreflexive, transitive and total |
| Ballots.SortDescending | RankEntries.py:109 | sorting with reverse=True gives the same tuples with none greater than one before it |
| Ballots.MaxResults | RankEntries.py:100-105 | the number of instance groups is the longest result list: no competitor has more, and one has exactly that many |
| Ballots.ColumnMembers | RankEntries.py:100-105 | group i holds the tuple of each competitor with an i-th result, and nothing else |
| Ballots.ColumnDistinct | RankEntries.py:100-105 | no key appears twice in a group |
| Ballots.AddCompetitor | RankEntries.py:102-105 | the inner loop appends one competitor's tuples to their groups, opening new groups in index order |
| Ballots.GroupByInstance | RankEntries.py:100-105 | grouped_by_instance holds, for each index 0, 1, …, the tuples for that instance in competitor order |
| Ballots.RankGroups | RankEntries.py:107-111 | the loop over instance groups yields one ballot per group, in group order |
| Ballots.DescendingUnique | RankEntries.py:109 | two descending orderings of the same distinct tuples are equal, so the sorted order is determined by the tuples alone |
| Ballots.RankInstance | RankEntries.py:109-110 | the ranked group is a permutation of the group in descending tuple order, and the ballot lists its keys in that order |
| Ballots.ConvertProblemToBallots | RankEntries.py:98-112 | one ballot per instance group: the keys of its tuples sorted descending |
| Ballots.BallotMembers | RankEntries.py:98-112 | instance i has a ballot exactly when some competitor has an i-th result; that ballot names each such competitor exactly once and nobody else |
| Ballots.BallotOrder | RankEntries.py:103-110 | down a ballot the best value falls, or stays and the remaining evaluations fall, or both stay and the key falls |
| Ballots.BallotsProper | RankEntries.py:98-112 | when all competitors have the same number of results, there is one ballot per instance and schulze accepts them |

## Left out

- Command-line handling, directory creation, meta and manifest files, JSON loading and printing. These are `safe_make` and the `__main__` blocks of all three files; they are I/O.
- The number generators `Uniform`, `Normal` and `Scaled`, including `Normal`'s rejection loop. They are floating-point randomness. Their draws are inputs (`Randomness.poolDraw`, `Randomness.cellDraw`).
- Negative N, K or eval_const: the classes hold natural numbers, since Create_Class only draws values in range (ProblemClassGenerator.py:167-169, MetaNK.py:78-80). The code itself would accept negative values. K = -1 gives empty NearestNeighbor rows and makes `random.sample` raise ValueError in Unrestricted. A negative eval_const gives a negative budget, which `{:06d}` prints with a sign.
- `Create_Class`'s random choice of strategies as callables. Only its parameter ranges are stated (`Generator.ValidClass`, `MetaNK.ValidClass`). The chosen strategies are fields of the class.
- Four-decimal formatting of table values: a parameter `fmt` assumed to emit neither spaces nor newlines (`Layout.ValidFormat`).
- Mesh.Width: computed as the smallest integer w with w^(K+1) >= N, not through the float power `N ** (1 / (K + 1.0))`. Float rounding could make the two differ for some N.
- Linkage.SatLike: the clause count `int(4.27 * N)` is a parameter (`satCount`), since 4.27 has no exact binary value.
- `Unrestricted` and `Separable` sample from a `set`. This is accepted up to Python 3.10 and refused from 3.11 on. The model follows the accepting versions.
- Values.TableInUnitInterval: assumes the draws lie in [0, 1] instead of modelling each distribution's range.
- `average_rank`: float averages, used for diagnostics only.
- Schulze.InitialStrengths: the source leaves the diagonal `p[(i, i)]` unset; the grid holds 0 there, and no later step reads it.
- Schulze.Schulze: models only ballots meeting the docstring's precondition (RankEntries.py:25-31): the first ballot names each candidate once and every ballot lists all of them. The ValueError that `b.index(x)` (RankEntries.py:42) raises on a ballot missing a candidate is not modelled, nor is a candidate repeated in ballots[0], which the dictionaries would collapse into one entry.
- Ballots.SortDescending: `list.sort` is modelled as a function on sequences (an insertion sort), not as an update in place. Its result is fully determined because the tuples are distinct.
- Ballots: `bestValue` is a JSON number, modelled as a `real`. NaN and infinities are not modelled.
- Generator.LinksShape: Mesh edges may repeat an index (self-loops), so Mesh rows are not claimed to be well formed.
