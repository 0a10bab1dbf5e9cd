# CFPQ benchmark harness and static CFPQ algorithm, modelled in Dafny

This project models two parts of the CFPQ_Algo repository.

The first is the workload and timing logic of the Python benchmark harness
(`test.py`):

- `filename` strips the directory and the extension from a path.
- `construct_graph_queries` turns every `v edge to` line of a graph file into
  a `<strategy>-edge-add v to edge` command. It writes one file for the
  `brute` strategy and one for the `smart` strategy.
- `correctness_graph_queries` first scans the graph for its least and
  greatest vertex. It then writes the same edge-add commands, followed by a
  `find-path i j` query for every ordered pair of distinct vertices in that
  interval.
- `test_one_graph` picks 100, 10 or 2 runs by workload size and averages
  the timings of the runs that reported one.
- `get_time` takes the value from the last `Total time: X s` line of an
  engine log.

The second is the static context-free path query algorithm
(`cfpq_algorithms/cfpq_static.c`). It keeps one boolean matrix per
nonterminal, seeds each from the terminal matrices of the graph through the
simple rules `A -> t`, then applies every complex rule `A -> B C` as
`M[A] |= M[B] * M[C]`. It repeats whole passes until a pass adds no entry,
counting the passes.

Modules:

- `Wrappers` holds `Option` and `Result`.
- `PyStr` holds the Python string built-ins the harness relies on: `str.split()`, `int()`, `str()`, `os.path.basename` and `os.path.splitext`.
- `Queries` holds the two workload generators.
- `Timing` holds `get_time`, the repeat tiers and the averaging.
- `BoolMatrix` models boolean matrices as sets of entries. `LOR.LAND` multiplication is relational composition.
- `Cfpq` holds `cfpq_static`. The response is a class over an `array` of matrices, updated in place.

File contents are sequences of lines, each with its trailing newline, as
Python's iteration over an open file yields them. A Python exception
(failed unpacking, failed `int()`, division by zero) becomes the `Err` case
of a `Result`.

## Model

| member | source | states |
|---|---|---|
| PyStr.Split | test.py:115 | every field of `line.split()` is non-empty and holds no whitespace |
| PyStr.Word | test.py:115 | a field of `split()` is the longest whitespace-free prefix: it ends at the first whitespace character, and is non-empty when the text starts with a non-space |
| PyStr.SplitJoinedLine | test.py:116 | the line written for whitespace-free fields splits back into exactly those fields |
| PyStr.JoinLine | test.py:116 | a line the harness writes is non-empty and ends with a newline |
| PyStr.IntToString | test.py:144 | `str(i)` is a whitespace-free token that starts with a minus sign exactly when `i` is negative |
| PyStr.NatToString | test.py:144 | `str(n)` of a natural number is a non-empty string of decimal digits |
| PyStr.ParseInt | test.py:130 | `int(s)` succeeds exactly when `s` is a numeral, optionally after one sign; a negative result comes only from a leading minus |
| PyStr.NatToStringValue | test.py:144 | `str(n)` is a numeral that `int()` reads as `n` |
| PyStr.IntToStringRoundTrip | test.py:130 | `int(str(i)) == i` for every integer, negative ones included |
| PyStr.LastIndexOf | test.py:29 | the index of the last occurrence of a character, or -1, with no occurrence after it |
| PyStr.Basename | test.py:29 | `os.path.basename` is the slash-free suffix after the last slash |
| PyStr.StripExtension | test.py:29 | `splitext(b)[0]` is the prefix of `b` before its last dot when some non-dot character precedes that dot, and `b` itself otherwise |
| PyStr.FilenameOfName | test.py:28-29 | `filename(stem.ext)` recovers `stem` for a slash-free stem with a non-dot character and a dot-free extension |
| PyStr.Filename | test.py:28-29 | `filename` is slash-free and a prefix of the base name |
| PyStr.FilenameOfJoin | test.py:28-29 | `filename(dir/stem.ext)` recovers `stem` for any directory, given a slash-free stem with a non-dot character |
| Queries.ParseEdge | test.py:115 | unpacking succeeds exactly when the line has three fields, and the edge is those fields |
| Queries.StrategyName | test.py:109 | both strategy tags, `brute` and `smart`, are five characters long |
| Queries.Edges | test.py:114-115 | the edges of a file in line order, or the first line that does not unpack, with all lines before it unpacking |
| Queries.AddLine | test.py:116 | an edge-add line starts with the strategy's name and ends with a newline |
| Queries.AddLines | test.py:114-116 | the edge-add lines of a file: exactly one per edge, the `k`-th being the line of the `k`-th edge, each starting with the strategy name and ending with a newline |
| Queries.AddLineFields | test.py:116 | an edge-add line splits into the strategy tag, the source, the target and the label, in that order |
| Queries.AddLineStrategiesAgree | test.py:109-116 | the brute and smart lines of an edge differ only in their first five characters |
| Queries.WriteAddLines | test.py:114-116 | one edge-add line per graph line in order, stopping at the first line that does not unpack and reporting it |
| Queries.ConstructGraphQueries | test.py:105-117 | fails exactly when some line does not unpack; otherwise both files hold one line per edge in file order and agree after the strategy prefix |
| Queries.LineEnds | test.py:129-131 | integer endpoints are produced only for lines that unpack |
| Queries.EndsOf | test.py:128-131 | one unpacking-and-`int()` outcome per graph line, the `k`-th being that of line `k` |
| Queries.Bounds | test.py:125-131 | the bounds pass succeeds only if every line yields integer endpoints; otherwise it reports the first line that fails and why |
| Queries.BoundsEnclose | test.py:125-131 | `min_v` is at most every endpoint and the sentinel `10**18`; `max_v` is at least every endpoint and `-10**18` |
| Queries.BoundsAttained | test.py:125-131 | `min_v` and `max_v` are each an endpoint of some line or the untouched sentinel |
| Queries.BoundsOkEdgesOk | test.py:129-139 | a graph that passes the bounds pass also unpacks in the writing pass |
| Queries.FoldBounds | test.py:125-131 | folding the per-line endpoints succeeds only when every line yields them; otherwise it reports the first line that fails and its cause |
| Queries.VertexBounds | test.py:125-131 | the line-by-line loop computes the bounds pass exactly |
| Queries.FindPathLine | test.py:144 | a `find-path` line is non-empty and ends with a newline |
| Queries.FindPathLines | test.py:144 | one `find-path` line per queried pair |
| Queries.FindPathLineFields | test.py:144 | a `find-path` line splits into the query tag and the two vertices, which read back as the same integers |
| Queries.FindPathLinesAppend | test.py:141-144 | the lines of two pair lists written in sequence are the concatenation of their lines |
| Queries.FindPathLinesSnoc | test.py:143-144 | querying one more pair appends exactly that pair's line |
| Queries.QueryStep | test.py:142-144 | one step of the inner loop adds the line for `(i, j)` when `i != j` and nothing when `i == j` |
| Queries.FindPaths | test.py:141-144 | the section has one line per queried pair |
| Queries.FindPathQueries | test.py:141-144 | the nested loops write exactly the `find-path` section for `[min_v, max_v]` |
| Queries.FindPathsCount | test.py:141-144 | the section has `(hi-lo+1)*(hi-lo)` lines for `lo <= hi` and none otherwise |
| Queries.FindPathsAt | test.py:141-144 | every ordered pair of distinct vertices of the interval is queried, at its lexicographic position |
| Queries.FindPathsEntry | test.py:141-144 | line `k` of the section is the `find-path` line of the `k`-th queried pair |
| Queries.QueryPairsAt | test.py:141-143 | the pair `(i, j)` of distinct vertices sits at its lexicographic position among the queried pairs |
| Queries.FindPathsOnly | test.py:141-144 | every query is for two distinct vertices of the interval |
| Queries.CorrectnessGraphQueries | test.py:120-145 | fails exactly when the bounds pass fails; otherwise each file is the edge-add lines followed by the find-path section, and the two files agree after the edges; an empty graph gives empty files |
| Timing.MatchTotalTime | test.py:192-193 | a capture holds no newline and is exactly the line minus the `Total time: ` prefix and the ` s\n` suffix in length |
| Timing.MatchTotalTimeExactly | test.py:192-193 | a line matches exactly when it is `Total time: x s\n` for a newline-free `x`, and the match captures `x` |
| Timing.LastTotalTime | test.py:188-195 | the time kept from a log never holds a newline |
| Timing.LastTotalTimeIsLastMatch | test.py:188-195 | no time exactly when no line matches; otherwise the capture of a matching line with no match after it |
| Timing.GetTime | test.py:188-197 | the scan returns the capture of the last matching line |
| Timing.RepeatCount | test.py:163-168 | at least two runs |
| Timing.RepeatCountTiers | test.py:163-168 | 100 runs up to 10000 lines, 10 up to 40000, 2 beyond, each tier both ways |
| Timing.RepeatCountNonIncreasing | test.py:163-168 | a larger workload never runs more often |
| Timing.CountSome | test.py:174-176 | no more runs report a time than there are runs |
| Timing.CountSomeZero | test.py:174-176 | the count of reporting runs is zero exactly when no run reported a time |
| Timing.SumSome | test.py:174-176 | the accumulated `time`: the sum of the reported times, which is zero when no run reported one |
| Timing.Average | test.py:174-178 | when the division succeeds there was at least one timing, and the average times their count is their sum |
| Timing.AverageFailsIffNoTiming | test.py:170-178 | the average raises exactly when no run reported a time |
| Timing.AverageWithinBounds | test.py:170-185 | the average lies between the least and the greatest reported time |
| Timing.SumSomeAtLeast | test.py:174-176 | when every reported time is at least `lo`, their sum is at least `lo` added once per reported time |
| Timing.TimesIsProduct | test.py:174-178 | adding `x` to itself `c` times gives `c * x` |
| Timing.QuotientBounds | test.py:178 | a sum between `lo` and `hi` each taken `c` times, divided by `c`, lies between `lo` and `hi` |
| Timing.SumSomeAtMost | test.py:174-176 | when every reported time is at most `hi`, their sum is at most `hi` added once per reported time |
| Timing.Outcomes | test.py:170-176 | one outcome per run |
| Timing.TestOneGraph | test.py:160-185 | the run loop gives the average of the per-run `get_time` results over `RepeatCount(q_size)` runs |
| BoolMatrix.Compose | cfpq_algorithms/cfpq_static.c:41-49 | the product with an empty matrix on either side is empty |
| BoolMatrix.ComposeMeaning | cfpq_algorithms/cfpq_static.c:41-49 | `(i, k)` is in `A LOR.LAND B` exactly when some `j` has `(i, j)` in `A` and `(j, k)` in `B` |
| BoolMatrix.ComposeBounded | cfpq_algorithms/cfpq_static.c:41-49 | the product of two `n`-by-`n` matrices is `n`-by-`n` |
| BoolMatrix.ComposeMonotone | cfpq_algorithms/cfpq_static.c:41-49 | multiplication is monotone in both operands |
| BoolMatrix.RowSizeBound | cfpq_algorithms/cfpq_static.c:27-61 | a row of width `w` holds at most `w` entries |
| BoolMatrix.RectangleSizeBound | cfpq_algorithms/cfpq_static.c:27-61 | an `h`-by-`w` matrix holds at most `h*w` entries |
| BoolMatrix.SizeBound | cfpq_algorithms/cfpq_static.c:27-61 | an `n`-by-`n` matrix holds at most `n*n` entries |
| BoolMatrix.TotalBound | cfpq_algorithms/cfpq_static.c:27-61 | the matrices hold at most `count*n*n` entries in total |
| BoolMatrix.GrowthChangesSize | cfpq_algorithms/cfpq_static.c:51-56 | for a matrix that only grows, the entry count changes exactly when the matrix changes |
| Cfpq.PlaceIndex | cfpq_algorithms/cfpq_static.c:11-13 | the index of the first occurrence of the label among the terminals, or the terminal count exactly when it is absent |
| Cfpq.Produces | cfpq_algorithms/cfpq_static.c:11-16 | edge `i`'s label leads to a copy into `M[A]` exactly when the label is a terminal and a simple rule `A -> t` names the index the lookup gives it |
| Cfpq.LastProducer | cfpq_algorithms/cfpq_static.c:8-24 | a producing label, when there is one, is among the first `e` |
| Cfpq.SeededMatrix | cfpq_algorithms/cfpq_static.c:8-24 | seeding keeps a matrix `n`-by-`n` when it starts so |
| Cfpq.LastProducerIsLast | cfpq_algorithms/cfpq_static.c:8-24 | there is no producing label exactly when no label produces the nonterminal; otherwise the one found produces it and no later label does |
| Cfpq.SeededMatrixIsLastCopy | cfpq_algorithms/cfpq_static.c:14-21 | because each copy replaces the matrix, a nonterminal's seed is the matrix of the last label producing it, or its initial matrix when none does |
| Cfpq.SeedStep | cfpq_algorithms/cfpq_static.c:8-24 | seeding one more label replaces `M[A]` by that label's matrix exactly when its terminal has a rule `A -> t`, and otherwise leaves it |
| Cfpq.CopyForRules | cfpq_algorithms/cfpq_static.c:14-22 | the simple-rule loop keeps the number of matrices |
| Cfpq.CopyForRulesAt | cfpq_algorithms/cfpq_static.c:14-22 | after the simple-rule loop for terminal `t`, `M[A]` is the label's matrix exactly when some rule `A -> t` exists, and unchanged otherwise |
| Cfpq.Step | cfpq_algorithms/cfpq_static.c:41-49 | a step only grows the rule's own matrix, leaves every other matrix as it was, and afterwards the rule's matrix contains the product of the operands as they were before |
| Cfpq.StepStaysBelow | cfpq_algorithms/cfpq_static.c:41-49 | a step never leaves a family that contains the matrices and satisfies the rule |
| Cfpq.StepBounded | cfpq_algorithms/cfpq_static.c:41-49 | a step keeps every matrix `n`-by-`n` |
| Cfpq.StepChangesCount | cfpq_algorithms/cfpq_static.c:51-56 | the entry count of the rule's matrix changes exactly when the step changes the matrices |
| Cfpq.RunPass | cfpq_algorithms/cfpq_static.c:33-60 | a pass keeps the number of matrices |
| Cfpq.TotalGrows | cfpq_algorithms/cfpq_static.c:51-56 | growing matrices never lowers the total entry count, and strict growth raises it |
| Cfpq.PassBounded | cfpq_algorithms/cfpq_static.c:33-60 | a pass keeps every matrix `n`-by-`n` |
| Cfpq.PassAddsEntry | cfpq_algorithms/cfpq_static.c:33-60 | a pass that changes the matrices adds at least one entry to their total |
| Cfpq.UnchangedPassIsFixpoint | cfpq_algorithms/cfpq_static.c:31-60 | a pass that changes nothing leaves matrices of which every complex rule holds |
| Cfpq.FixpointExtends | cfpq_algorithms/cfpq_static.c:33-60 | matrices that satisfy every rule but the last, and also the last, satisfy every rule |
| Cfpq.StepUnchangedHolds | cfpq_algorithms/cfpq_static.c:41-56 | a step that changes nothing finds its rule already holding |
| Cfpq.PassAdvances | cfpq_algorithms/cfpq_static.c:33-60 | one more rule extends the pass by one step, and once a step changes the matrices they differ from the pass's start |
| Cfpq.PassBelow | cfpq_algorithms/cfpq_static.c:33-60 | a pass only adds entries |
| Cfpq.PassStaysBelow | cfpq_algorithms/cfpq_static.c:33-60 | matrices below a family closed under the rules stay below it through a pass |
| Cfpq.Passes | cfpq_algorithms/cfpq_static.c:27-31 | the number of passes the loop makes: one pass, plus the passes from its result whenever that pass changed the matrices; at least one, and exactly one when the first pass changes nothing |
| Cfpq.PassesBound | cfpq_algorithms/cfpq_static.c:27-61 | from `n`-by-`n` matrices the loop makes at least one pass and at most one more than the number of entries still free |
| Cfpq.Response.Init | cfpq_algorithms/cfpq_static.c:5 | one empty `n`-by-`n` matrix per nonterminal and no passes yet |
| Cfpq.Response.SeedFromTerminals | cfpq_algorithms/cfpq_static.c:8-24 | each nonterminal's matrix becomes a copy of the terminal matrix of the last edge label producing it, or stays as it was |
| Cfpq.Response.CopyForTerminal | cfpq_algorithms/cfpq_static.c:14-22 | the inner loop applies the simple rules in order, copying the label's matrix for every rule on its terminal and changing nothing else |
| Cfpq.Response.ApplyComplexRule | cfpq_algorithms/cfpq_static.c:34-56 | the rule's matrix gains the product of its two operands, nothing else changes, and the change flag is set exactly when the matrices changed |
| Cfpq.Response.Pass | cfpq_algorithms/cfpq_static.c:31-60 | the pass applies the rules in order and reports a change exactly when the matrices differ from before |
| Cfpq.Response.CloseUnderComplexRules | cfpq_algorithms/cfpq_static.c:27-61 | on exit every complex rule holds; the result contains the start and lies below every closed family containing it; the pass count grows by exactly `Passes` of the start, the final unchanged pass included, which is between 1 and `count*n*n + 1` |
| Cfpq.Seeds | cfpq_algorithms/cfpq_static.c:8-24 | one seeded matrix per nonterminal |
| Cfpq.CfpqStatic | cfpq_algorithms/cfpq_static.c:3-62 | the result is the least family of matrices that contains the seeds and is closed under every complex rule; the pass count is exactly `Passes` of the seeds, between 1 and `count*n*n + 1` |

## Left out

- Shell and filesystem plumbing is not modelled: directories, `os.makedirs`, opening and writing files, `os.remove`, running `./main` through `subprocess`, and logging. Each graph file, log and workload is a sequence of lines.
- `filesize` (`wc -l`) is not modelled. `Timing.TestOneGraph` takes the workload's line count `qSize` as a parameter.
- Timing.TestOneGraph: `float()` and `round(..., 6)` are the parameter `seconds`. A `ValueError` from `float()` on a malformed capture, and the final rounding of the average, are not modelled.
- Timing.Average: timings are exact `real`s, not IEEE 754 doubles. Sums and the division are exact in the model; Python rounds each. Three runs of 0.1 s average to 0.10000000000000002 in Python and to exactly 0.1 here.
- Timing.TestOneGraph: because it is stated through `Timing.Average`, its result is the exact average, not Python's rounded float.
- Timing.AverageWithinBounds: the bounds hold of the exact average. Python's rounded average can leave them by a rounding error, e.g. when all timings are equal.
- Cfpq.PlaceIndex: `ItemMapper_GetPlaceIndex` is taken to be a first-match search by string equality that returns the terminal count when the label is absent. Its code is not part of this model.
- `int()` is modelled for ASCII digits only. Python also accepts other Unicode decimal digits.
- `init`, `test_all`, the result comparison between strategies and the report are outside this model.
- Queries.ConstructGraphQueries: when a line fails to unpack, Python has already written part of the brute file. The model returns only the error, not that partial file.
- Cfpq.Response.Init: the body of `Response_Init` is not part of this model. It is taken to allocate one empty matrix per nonterminal and set the pass count to zero.
- GraphBLAS is modelled by its mathematical effect: a boolean matrix is the set of its stored entries. Explicitly stored `false` entries, memory management and the `m_old` copy are not modelled.
- `GrB_mxm` writes into `M[A]` while `A` may also be an operand. The model reads both operands before the update, as GraphBLAS does for an aliased output.
- A batch in which no run reported a time is not reported as "no data". The code divides by a zero count and raises `ZeroDivisionError` (test.py:178). The model follows the code: `Timing.Average` returns `Err(ZeroDivisionError)`.
