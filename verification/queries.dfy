/**
 * Workload synthesis of the test harness: the construct workload (one
 * edge-add command per graph edge) and the correctness workload (the same
 * edge-add commands, then a `find-path` query for every ordered pair of
 * distinct vertices in the graph's vertex interval), each written once per
 * strategy, `brute` and `smart`.
 *
 * A file is a sequence of lines, each with its trailing newline, as Python's
 * iteration over an open file yields them.
 */
module Queries {
  import opened Wrappers
  import opened PyStr

  datatype Strategy = Brute | Smart

  /** The strategy's prefix token; both are five characters long. */
  function StrategyName(s: Strategy): (r: string)
    ensures |r| == 5
  {
    match s
    case Brute => "brute"
    case Smart => "smart"
  }

  /** One graph-file line `v edge to`, kept as its three tokens. */
  datatype Edge = Edge(v: string, edgeLabel: string, to: string)

  predicate WellTokened(e: Edge)
  {
    IsToken(e.v) && IsToken(e.edgeLabel) && IsToken(e.to)
  }

  /** `v, edge, to = line.split()`: `None` when the unpacking raises, i.e. unless there are exactly three fields. */
  function ParseEdge(line: string): (r: Option<Edge>)
    ensures r.Some? <==> |Split(line)| == 3
    ensures r.Some? ==> Split(line) == [r.value.v, r.value.edgeLabel, r.value.to] && WellTokened(r.value)
  {
    var ts := Split(line);
    if |ts| == 3 then Some(Edge(ts[0], ts[1], ts[2])) else None
  }

  /**
   * The edges of a graph file in file order, or the index of the first line
   * that does not unpack into three fields.
   */
  function Edges(graph: seq<string>): (r: Result<seq<Edge>, nat>)
    ensures r.Ok? ==> |r.value| == |graph| && forall k :: 0 <= k < |graph| ==> ParseEdge(graph[k]) == Some(r.value[k])
    ensures r.Err? ==> r.error < |graph| && ParseEdge(graph[r.error]).None?
                       && forall k :: 0 <= k < r.error ==> ParseEdge(graph[k]).Some?
  {
    if graph == [] then Ok([])
    else
      match Edges(graph[..|graph| - 1])
      case Err(m) => Err(m)
      case Ok(es) =>
        match ParseEdge(graph[|graph| - 1])
        case None => Err(|graph| - 1)
        case Some(e) => Ok(es + [e])
  }

  /** The command that adds edge `e` under strategy `kind`: source, then target, then label. */
  function AddLine(kind: Strategy, e: Edge): (r: string)
    ensures |r| > 5 && r[..5] == StrategyName(kind) && r[|r| - 1] == '\n'
  {
    var tag := StrategyName(kind) + "-edge-add";
    assert JoinLine([tag, e.v, e.to, e.edgeLabel]) == tag + " " + JoinLine([e.v, e.to, e.edgeLabel]);
    JoinLine([tag, e.v, e.to, e.edgeLabel])
  }

  /** The edge-add lines of one construct file: one per edge, in edge order. */
  function AddLines(kind: Strategy, es: seq<Edge>): (r: seq<string>)
    ensures |r| == |es|
    ensures forall k :: 0 <= k < |es| ==> r[k] == AddLine(kind, es[k])
    ensures forall k :: 0 <= k < |r| ==> |r[k]| > 5 && r[k][..5] == StrategyName(kind) && r[k][|r[k]| - 1] == '\n'
  {
    seq(|es|, k requires 0 <= k < |es| => AddLine(kind, es[k]))
  }

  /**
   * An edge-add line reads back, field by field, as the strategy's command
   * token followed by the source, the TARGET and then the LABEL of the edge.
   */
  lemma AddLineFields(kind: Strategy, e: Edge)
    requires WellTokened(e)
    ensures Split(AddLine(kind, e)) == [StrategyName(kind) + "-edge-add", e.v, e.to, e.edgeLabel]
  {
    var tag := StrategyName(kind) + "-edge-add";
    assert IsToken(tag) by {
      match kind
      case Brute => assert tag == "brute-edge-add";
      case Smart => assert tag == "smart-edge-add";
    }
    SplitJoinedLine([tag, e.v, e.to, e.edgeLabel]);
  }

  /** The brute and the smart edge-add line of an edge differ only in their first five characters. */
  lemma AddLineStrategiesAgree(e: Edge)
    ensures AddLine(Brute, e)[..5] == "brute" && AddLine(Smart, e)[..5] == "smart"
    ensures AddLine(Brute, e)[5..] == AddLine(Smart, e)[5..]
  {
    var rest := JoinLine([e.v, e.to, e.edgeLabel]);
    var b := [StrategyName(Brute) + "-edge-add", e.v, e.to, e.edgeLabel];
    var s := [StrategyName(Smart) + "-edge-add", e.v, e.to, e.edgeLabel];
    assert b[1..] == s[1..] == [e.v, e.to, e.edgeLabel];
    assert AddLine(Brute, e) == "brute" + ("-edge-add " + rest);
    assert AddLine(Smart, e) == "smart" + ("-edge-add " + rest);
  }

  /**
   * The loop `for line in fin: v, edge, to = line.split(); fout.write(...)`:
   * the lines it writes before it finishes or raises, and the index of the
   * line that raised.
   */
  method WriteAddLines(kind: Strategy, graph: seq<string>) returns (written: seq<string>, failedAt: Option<nat>)
    ensures failedAt == (if Edges(graph).Err? then Some(Edges(graph).error) else None)
    ensures failedAt.None? ==> written == AddLines(kind, Edges(graph).value)
    ensures failedAt.Some? ==> |written| == failedAt.value
    ensures forall k :: 0 <= k < |written| ==> ParseEdge(graph[k]).Some? && written[k] == AddLine(kind, ParseEdge(graph[k]).value)
  {
    written := [];
    var i := 0;
    while i < |graph|
      invariant 0 <= i <= |graph|
      invariant |written| == i
      invariant forall k :: 0 <= k < i ==> ParseEdge(graph[k]).Some? && written[k] == AddLine(kind, ParseEdge(graph[k]).value)
    {
      var e := ParseEdge(graph[i]);
      if e.None? {
        failedAt := Some(i);
        return;
      }
      written := written + [AddLine(kind, e.value)];
      i := i + 1;
    }
    failedAt := None;
  }

  /** The two workload files written for one graph. */
  datatype Workloads = Workloads(brute: seq<string>, smart: seq<string>)

  /**
   * `construct_graph_queries`: one edge-add line per graph line, in file
   * order, first for `brute` and then for `smart`. A line that does not split
   * into three fields raises while the brute file is written, so the smart
   * file is never written.
   */
  method ConstructGraphQueries(graph: seq<string>) returns (r: Result<Workloads, nat>)
    ensures r.Err? <==> Edges(graph).Err?
    ensures r.Err? ==> r.error == Edges(graph).error
    ensures r.Ok? ==> (r.value.brute == AddLines(Brute, Edges(graph).value)
                       && r.value.smart == AddLines(Smart, Edges(graph).value))
    ensures r.Ok? ==> |r.value.brute| == |graph| && |r.value.smart| == |graph|
    ensures r.Ok? ==> forall k :: 0 <= k < |graph| ==>
                        r.value.brute[k][..5] == "brute" && r.value.smart[k][..5] == "smart"
                        && r.value.brute[k][5..] == r.value.smart[k][5..]
  {
    var brute, failed := WriteAddLines(Brute, graph);
    if failed.Some? {
      return Err(failed.value);
    }
    var smart, _ := WriteAddLines(Smart, graph);
    r := Ok(Workloads(brute, smart));
    forall k | 0 <= k < |graph|
      ensures brute[k][..5] == "brute" && smart[k][..5] == "smart" && brute[k][5..] == smart[k][5..]
    {
      AddLineStrategiesAgree(Edges(graph).value[k]);
    }
  }

  // ---------------------------------------------------------------------
  // Correctness workload

  /** Why `int()` or the tuple unpacking raised on a line. */
  datatype LineError = Arity | NotAnInt

  datatype GraphError = GraphError(line: nat, cause: LineError)

  /** The two endpoints of a line as integers: `int(v)` first, then `int(to)`. */
  function LineEnds(line: string): (r: Result<(int, int), LineError>)
    ensures r.Ok? ==> ParseEdge(line).Some?
  {
    match ParseEdge(line)
    case None => Err(Arity)
    case Some(e) =>
      match ParseInt(e.v)
      case None => Err(NotAnInt)
      case Some(v) =>
        match ParseInt(e.to)
        case None => Err(NotAnInt)
        case Some(to) => Ok((v, to))
  }

  /** The initial values of `min_v` and `-max_v`: 10**18. */
  const Sentinel: int := 1_000_000_000_000_000_000

  function Min3(a: int, b: int, c: int): int
  {
    if a <= b && a <= c then a else if b <= c then b else c
  }

  function Max3(a: int, b: int, c: int): int
  {
    if a >= b && a >= c then a else if b >= c then b else c
  }

  /** The outcome of the unpacking and `int()` on each line, in file order. */
  function EndsOf(graph: seq<string>): (r: seq<Result<(int, int), LineError>>)
    ensures |r| == |graph| && forall k :: 0 <= k < |graph| ==> r[k] == LineEnds(graph[k])
  {
    seq(|graph|, k requires 0 <= k < |graph| => LineEnds(graph[k]))
  }

  /**
   * The bounds loop over the per-line outcomes: `(min_v, max_v)` after every
   * line, or the first line that raised.
   */
  function FoldBounds(ends: seq<Result<(int, int), LineError>>): (r: Result<(int, int), GraphError>)
    ensures r.Ok? ==> forall k :: 0 <= k < |ends| ==> ends[k].Ok?
    ensures r.Err? ==> r.error.line < |ends| && ends[r.error.line] == Err(r.error.cause)
                       && forall k :: 0 <= k < r.error.line ==> ends[k].Ok?
  {
    if ends == [] then Ok((Sentinel, -Sentinel))
    else
      var front := ends[..|ends| - 1];
      assert forall k :: 0 <= k < |front| ==> front[k] == ends[k];
      match FoldBounds(front)
      case Err(e) => Err(e)
      case Ok(b) =>
        match ends[|ends| - 1]
        case Err(cause) => Err(GraphError(|ends| - 1, cause))
        case Ok(p) => Ok((Min3(p.0, p.1, b.0), Max3(p.0, p.1, b.1)))
  }

  /**
   * The bounds pass over a graph file: `(min_v, max_v)` after every line, or
   * the first line on which the unpacking or `int()` raised.
   */
  function Bounds(graph: seq<string>): (r: Result<(int, int), GraphError>)
    ensures r.Ok? ==> forall k :: 0 <= k < |graph| ==> LineEnds(graph[k]).Ok?
    ensures r.Err? ==> r.error.line < |graph| && LineEnds(graph[r.error.line]) == Err(r.error.cause)
                       && forall k :: 0 <= k < r.error.line ==> LineEnds(graph[k]).Ok?
  {
    FoldBounds(EndsOf(graph))
  }

  /** `x` is an endpoint of some line of `graph`. */
  predicate IsEndpoint(graph: seq<string>, x: int)
  {
    exists k :: 0 <= k < |graph| && LineEnds(graph[k]).Ok?
                && (x == LineEnds(graph[k]).value.0 || x == LineEnds(graph[k]).value.1)
  }

  /**
   * `x` is an endpoint in one of the per-line outcomes. The fold's lemmas use
   * this form so that they never unfold line parsing; `EndIsEndpoint` carries
   * their results back to `IsEndpoint`, which is stated over the graph.
   */
  predicate IsEnd(ends: seq<Result<(int, int), LineError>>, x: int)
  {
    exists k :: 0 <= k < |ends| && ends[k].Ok? && (x == ends[k].value.0 || x == ends[k].value.1)
  }

  /**
   * After the bounds pass, `min_v` is at most every endpoint and at most the
   * sentinel, and `max_v` at least every endpoint and at least the negated
   * sentinel.
   */
  lemma BoundsEnclose(graph: seq<string>)
    requires Bounds(graph).Ok?
    ensures Bounds(graph).value.0 <= Sentinel && -Sentinel <= Bounds(graph).value.1
    ensures forall k :: 0 <= k < |graph| ==>
              && Bounds(graph).value.0 <= LineEnds(graph[k]).value.0 <= Bounds(graph).value.1
              && Bounds(graph).value.0 <= LineEnds(graph[k]).value.1 <= Bounds(graph).value.1
  {
    var ends := EndsOf(graph);
    FoldWithinSentinels(ends);
    forall k | 0 <= k < |graph|
      ensures && Bounds(graph).value.0 <= LineEnds(graph[k]).value.0 <= Bounds(graph).value.1
              && Bounds(graph).value.0 <= LineEnds(graph[k]).value.1 <= Bounds(graph).value.1
    {
      FoldEncloses(ends, k);
    }
  }

  lemma {:induction false} FoldWithinSentinels(ends: seq<Result<(int, int), LineError>>)
    requires FoldBounds(ends).Ok?
    ensures FoldBounds(ends).value.0 <= Sentinel && -Sentinel <= FoldBounds(ends).value.1
  {
    if ends != [] {
      FoldWithinSentinels(ends[..|ends| - 1]);
    }
  }

  lemma {:induction false} FoldEncloses(ends: seq<Result<(int, int), LineError>>, k: nat)
    requires FoldBounds(ends).Ok? && k < |ends|
    ensures FoldBounds(ends).value.0 <= ends[k].value.0 <= FoldBounds(ends).value.1
    ensures FoldBounds(ends).value.0 <= ends[k].value.1 <= FoldBounds(ends).value.1
  {
    var front := ends[..|ends| - 1];
    if k < |front| {
      FoldEncloses(front, k);
      assert front[k] == ends[k];
    }
  }

  /**
   * The bounds are attained: `min_v` is the sentinel or an endpoint, and so is
   * `max_v`. With `BoundsEnclose`, on a graph whose vertices lie within the
   * sentinels they are its least and its greatest vertex.
   */
  lemma BoundsAttained(graph: seq<string>)
    requires Bounds(graph).Ok?
    ensures Bounds(graph).value.0 == Sentinel || IsEndpoint(graph, Bounds(graph).value.0)
    ensures Bounds(graph).value.1 == -Sentinel || IsEndpoint(graph, Bounds(graph).value.1)
  {
    var ends := EndsOf(graph);
    FoldAttained(ends);
    var (lo, hi) := FoldBounds(ends).value;
    if IsEnd(ends, lo) {
      EndIsEndpoint(graph, lo);
    }
    if IsEnd(ends, hi) {
      EndIsEndpoint(graph, hi);
    }
  }

  lemma EndIsEndpoint(graph: seq<string>, x: int)
    requires IsEnd(EndsOf(graph), x)
    ensures IsEndpoint(graph, x)
  {
    var ends := EndsOf(graph);
    var k :| 0 <= k < |ends| && ends[k].Ok? && (x == ends[k].value.0 || x == ends[k].value.1);
    assert ends[k] == LineEnds(graph[k]);
  }

  lemma {:induction false} FoldAttained(ends: seq<Result<(int, int), LineError>>)
    requires FoldBounds(ends).Ok?
    ensures FoldBounds(ends).value.0 == Sentinel || IsEnd(ends, FoldBounds(ends).value.0)
    ensures FoldBounds(ends).value.1 == -Sentinel || IsEnd(ends, FoldBounds(ends).value.1)
  {
    if ends != [] {
      var front := ends[..|ends| - 1];
      FoldAttained(front);
      var (lo, hi) := FoldBounds(front).value;
      var last := |ends| - 1;
      assert IsEnd(ends, ends[last].value.0) && IsEnd(ends, ends[last].value.1);
      if IsEnd(front, lo) {
        EndOfFront(ends, lo);
      }
      if IsEnd(front, hi) {
        EndOfFront(ends, hi);
      }
    }
  }

  lemma EndOfFront(ends: seq<Result<(int, int), LineError>>, x: int)
    requires ends != [] && IsEnd(ends[..|ends| - 1], x)
    ensures IsEnd(ends, x)
  {
    var front := ends[..|ends| - 1];
    var k :| 0 <= k < |front| && front[k].Ok? && (x == front[k].value.0 || x == front[k].value.1);
    assert front[k] == ends[k];
  }

  /** A graph whose endpoints all parse also unpacks line by line. */
  lemma {:induction false} BoundsOkEdgesOk(graph: seq<string>)
    requires Bounds(graph).Ok?
    ensures Edges(graph).Ok?
  {
  }

  /** The bounds loop over one more line: stop at its error, or fold its endpoints in. */
  lemma FoldNext(ends: seq<Result<(int, int), LineError>>, i: nat)
    requires i < |ends|
    ensures FoldBounds(ends[..i + 1]) ==
              match FoldBounds(ends[..i])
              case Err(e) => Err(e)
              case Ok(b) =>
                match ends[i]
                case Err(cause) => Err(GraphError(i, cause))
                case Ok(p) => Ok((Min3(p.0, p.1, b.0), Max3(p.0, p.1, b.1)))
  {
    assert ends[..i + 1][..i] == ends[..i];
  }

  /** Once the bounds loop has raised on a prefix, the later lines change nothing. */
  lemma {:induction false} FoldErrStays(ends: seq<Result<(int, int), LineError>>, i: nat)
    requires i <= |ends| && FoldBounds(ends[..i]).Err?
    ensures FoldBounds(ends) == FoldBounds(ends[..i])
    decreases |ends| - i
  {
    if i < |ends| {
      FoldNext(ends, i);
      FoldErrStays(ends, i + 1);
    } else {
      assert ends[..i] == ends;
    }
  }

  /**
   * The bounds loop of `correctness_graph_queries`, which updates `min_v` and
   * `max_v` line by line.
   */
  method VertexBounds(graph: seq<string>) returns (r: Result<(int, int), GraphError>)
    ensures r == Bounds(graph)
  {
    ghost var ends := EndsOf(graph);
    var minV, maxV := Sentinel, -Sentinel;
    var i := 0;
    while i < |graph|
      invariant 0 <= i <= |graph|
      invariant FoldBounds(ends[..i]) == Ok((minV, maxV))
    {
      FoldNext(ends, i);
      var e := LineEnds(graph[i]);
      assert e == ends[i];
      if e.Err? {
        FoldErrStays(ends, i + 1);
        return Err(GraphError(i, e.error));
      }
      minV := Min3(e.value.0, e.value.1, minV);
      maxV := Max3(e.value.0, e.value.1, maxV);
      i := i + 1;
    }
    assert ends[..i] == ends;
    r := Ok((minV, maxV));
  }

  /** `find-path i j`, the vertices written by `str()`. */
  function FindPathLine(i: int, j: int): (r: string)
    ensures |r| > 0 && r[|r| - 1] == '\n'
  {
    JoinLine(["find-path", IntToString(i), IntToString(j)])
  }

  /** A find-path line reads back as the query token and the two vertices, in order. */
  lemma FindPathLineFields(i: int, j: int)
    ensures Split(FindPathLine(i, j)) == ["find-path", IntToString(i), IntToString(j)]
    ensures ParseInt(IntToString(i)) == Some(i) && ParseInt(IntToString(j)) == Some(j)
  {
    assert IsToken("find-path");
    SplitJoinedLine(["find-path", IntToString(i), IntToString(j)]);
    IntToStringRoundTrip(i);
    IntToStringRoundTrip(j);
  }

  /** The pairs the inner loop has queried so far: `(i, j')` for `lo <= j' < j`, `j' != i`. */
  function Row(i: int, lo: int, j: int): seq<(int, int)>
    decreases j - lo
  {
    if j <= lo then []
    else Row(i, lo, j - 1) + (if i != j - 1 then [(i, j - 1)] else [])
  }

  /** The pairs the outer loop has queried so far: the rows of `lo <= i' < i`, each over `[lo, hi]`. */
  function Grid(lo: int, i: int, hi: int): seq<(int, int)>
    decreases i - lo
  {
    if i <= lo then []
    else Grid(lo, i - 1, hi) + Row(i - 1, lo, hi + 1)
  }

  /** The vertex pairs queried by a correctness workload for the vertex interval `[lo, hi]`. */
  function QueryPairs(lo: int, hi: int): seq<(int, int)>
  {
    Grid(lo, hi + 1, hi)
  }

  function FindPathLines(ps: seq<(int, int)>): (r: seq<string>)
    ensures |r| == |ps|
  {
    seq(|ps|, k requires 0 <= k < |ps| => FindPathLine(ps[k].0, ps[k].1))
  }

  /** The `find-path` section of a correctness workload for the vertex interval `[lo, hi]`. */
  function FindPaths(lo: int, hi: int): (r: seq<string>)
    ensures |r| == |QueryPairs(lo, hi)|
  {
    FindPathLines(QueryPairs(lo, hi))
  }

  lemma FindPathLinesAppend(ps: seq<(int, int)>, qs: seq<(int, int)>)
    ensures FindPathLines(ps + qs) == FindPathLines(ps) + FindPathLines(qs)
  {
    var l, r := FindPathLines(ps + qs), FindPathLines(ps) + FindPathLines(qs);
    forall k | 0 <= k < |l| ensures l[k] == r[k] {
      FindPathLinesAt(ps + qs, k);
      if k < |ps| {
        FindPathLinesAt(ps, k);
      } else {
        FindPathLinesAt(qs, k - |ps|);
      }
    }
  }

  lemma FindPathLinesAt(ps: seq<(int, int)>, k: int)
    requires 0 <= k < |ps|
    ensures FindPathLines(ps)[k] == FindPathLine(ps[k].0, ps[k].1)
  {
  }

  /** The nested `for i in range(min_v, max_v + 1): for j in range(...)` loops. */
  method FindPathQueries(lo: int, hi: int) returns (out: seq<string>)
    ensures out == FindPaths(lo, hi)
  {
    out := [];
    var i := lo;
    while i < hi + 1
      invariant lo <= i && (i <= hi + 1 || i == lo)
      invariant out == FindPathLines(Grid(lo, i, hi))
      decreases hi + 1 - i
    {
      var j := lo;
      assert Grid(lo, i, hi) + Row(i, lo, j) == Grid(lo, i, hi);
      while j < hi + 1
        invariant lo <= j <= hi + 1
        invariant out == FindPathLines(Grid(lo, i, hi) + Row(i, lo, j))
        decreases hi + 1 - j
      {
        QueryStep(lo, hi, i, j);
        if i != j {
          out := out + [FindPathLine(i, j)];
        }
        j := j + 1;
      }
      assert Grid(lo, i, hi) + Row(i, lo, hi + 1) == Grid(lo, i + 1, hi);
      i := i + 1;
    }
    assert Grid(lo, i, hi) == QueryPairs(lo, hi);
  }

  /** One step of the inner loop writes the line for `(i, j)` unless `i == j`. */
  lemma QueryStep(lo: int, hi: int, i: int, j: int)
    requires lo <= j
    ensures FindPathLines(Grid(lo, i, hi) + Row(i, lo, j + 1))
            == FindPathLines(Grid(lo, i, hi) + Row(i, lo, j)) + (if i != j then [FindPathLine(i, j)] else [])
  {
    if i != j {
      FindPathLinesSnoc(Grid(lo, i, hi) + Row(i, lo, j), (i, j));
      assert Grid(lo, i, hi) + Row(i, lo, j + 1) == Grid(lo, i, hi) + Row(i, lo, j) + [(i, j)];
    } else {
      assert Row(i, lo, j + 1) == Row(i, lo, j);
    }
  }

  /** Querying one more pair appends its line. */
  lemma FindPathLinesSnoc(ps: seq<(int, int)>, p: (int, int))
    ensures FindPathLines(ps + [p]) == FindPathLines(ps) + [FindPathLine(p.0, p.1)]
  {
    FindPathLinesAppend(ps, [p]);
    FindPathLinesAt([p], 0);
  }

  lemma {:induction false} RowLength(i: int, lo: int, j: int)
    requires lo <= j
    ensures |Row(i, lo, j)| == j - lo - (if lo <= i < j then 1 else 0)
    decreases j - lo
  {
    if j > lo {
      RowLength(i, lo, j - 1);
    }
  }

  lemma {:induction false} RowAt(i: int, lo: int, j: int, j': int)
    requires lo <= j' < j && j' != i
    ensures var idx := j' - lo - (if lo <= i < j' then 1 else 0);
            0 <= idx < |Row(i, lo, j)| && Row(i, lo, j)[idx] == (i, j')
    decreases j - lo
  {
    RowLength(i, lo, j - 1);
    if j' < j - 1 {
      RowAt(i, lo, j - 1, j');
    }
  }

  lemma {:induction false} RowOnly(i: int, lo: int, j: int, c: nat)
    requires c < |Row(i, lo, j)|
    ensures Row(i, lo, j)[c].0 == i && lo <= Row(i, lo, j)[c].1 < j && Row(i, lo, j)[c].1 != i
    decreases j - lo
  {
    if j > lo && c < |Row(i, lo, j - 1)| {
      RowOnly(i, lo, j - 1, c);
    }
  }

  lemma {:induction false} GridLength(lo: int, i: int, hi: int)
    requires lo <= i <= hi + 1
    ensures |Grid(lo, i, hi)| == (i - lo) * (hi - lo)
    decreases i - lo
  {
    if i > lo {
      GridLength(lo, i - 1, hi);
      RowLength(i - 1, lo, hi + 1);
    }
  }

  lemma {:induction false} GridPrefix(lo: int, i': int, i: int, hi: int)
    requires i' <= i
    ensures |Grid(lo, i', hi)| <= |Grid(lo, i, hi)| && Grid(lo, i, hi)[..|Grid(lo, i', hi)|] == Grid(lo, i', hi)
    decreases i - i'
  {
    if i' < i && lo < i {
      GridPrefix(lo, i', i - 1, hi);
    }
  }

  lemma GridAt(lo: int, i: int, hi: int, i': int, c: nat)
    requires lo <= i' < i && c < |Row(i', lo, hi + 1)|
    ensures |Grid(lo, i', hi)| + c < |Grid(lo, i, hi)|
    ensures Grid(lo, i, hi)[|Grid(lo, i', hi)| + c] == Row(i', lo, hi + 1)[c]
  {
    GridPrefix(lo, i' + 1, i, hi);
    var g := Grid(lo, i' + 1, hi);
    assert g == Grid(lo, i', hi) + Row(i', lo, hi + 1);
    assert g[|Grid(lo, i', hi)| + c] == Row(i', lo, hi + 1)[c];
  }

  lemma {:induction false} GridOnly(lo: int, i: int, hi: int, k: nat)
    requires k < |Grid(lo, i, hi)|
    ensures lo <= Grid(lo, i, hi)[k].0 < i && lo <= Grid(lo, i, hi)[k].1 <= hi
    ensures Grid(lo, i, hi)[k].0 != Grid(lo, i, hi)[k].1
    decreases i - lo
  {
    var front := Grid(lo, i - 1, hi);
    if k < |front| {
      GridOnly(lo, i - 1, hi, k);
    } else {
      RowOnly(i - 1, lo, hi + 1, k - |front|);
    }
  }

  /**
   * The `find-path` section has `(hi - lo + 1) * (hi - lo)` lines for a
   * non-empty interval and none otherwise (in particular none between the
   * untouched sentinels of an empty graph).
   */
  lemma FindPathsCount(lo: int, hi: int)
    ensures |FindPaths(lo, hi)| == if lo <= hi then (hi - lo + 1) * (hi - lo) else 0
  {
    if lo <= hi {
      GridLength(lo, hi + 1, hi);
    }
  }

  /**
   * Every ordered pair of distinct vertices of `[lo, hi]` is queried, vertices
   * without edges included, at the position that lexicographic order of
   * `(i, j)` gives it: row `i - lo` of `hi - lo` queries, column `j - lo`,
   * less one past the skipped diagonal.
   */
  lemma FindPathsAt(lo: int, hi: int, i: int, j: int)
    requires lo <= i <= hi && lo <= j <= hi && i != j
    ensures var idx := (i - lo) * (hi - lo) + (j - lo) - (if i < j then 1 else 0);
            0 <= idx < |FindPaths(lo, hi)| && FindPaths(lo, hi)[idx] == FindPathLine(i, j)
  {
    QueryPairsAt(lo, hi, i, j);
    FindPathsEntry(lo, hi, (i - lo) * (hi - lo) + (j - lo) - (if i < j then 1 else 0), i, j);
  }

  /** The pair behind that position. */
  lemma QueryPairsAt(lo: int, hi: int, i: int, j: int)
    requires lo <= i <= hi && lo <= j <= hi && i != j
    ensures var idx := (i - lo) * (hi - lo) + (j - lo) - (if i < j then 1 else 0);
            0 <= idx < |QueryPairs(lo, hi)| && QueryPairs(lo, hi)[idx] == (i, j)
  {
    var c := (j - lo) - (if i < j then 1 else 0);
    RowAt(i, lo, hi + 1, j);
    GridAtRow(lo, hi, i, c, (i - lo) * (hi - lo) + (j - lo) - (if i < j then 1 else 0));
  }

  /** Entry `c` of row `i` sits after the rows before it. */
  lemma GridAtRow(lo: int, hi: int, i: int, c: nat, idx: int)
    requires lo <= i <= hi && c < |Row(i, lo, hi + 1)| && idx == (i - lo) * (hi - lo) + c
    ensures 0 <= idx < |QueryPairs(lo, hi)| && QueryPairs(lo, hi)[idx] == Row(i, lo, hi + 1)[c]
  {
    GridLength(lo, i, hi);
    GridAt(lo, hi + 1, hi, i, c);
  }

  /** Line `k` of the `find-path` section queries pair `k`. */
  lemma FindPathsEntry(lo: int, hi: int, k: int, i: int, j: int)
    requires 0 <= k < |QueryPairs(lo, hi)| && QueryPairs(lo, hi)[k] == (i, j)
    ensures 0 <= k < |FindPaths(lo, hi)| && FindPaths(lo, hi)[k] == FindPathLine(i, j)
  {
  }

  /** Nothing else is queried: each line is `find-path i j` for distinct `i, j` in `[lo, hi]`. */
  lemma FindPathsOnly(lo: int, hi: int, k: nat)
    requires k < |FindPaths(lo, hi)|
    ensures exists i, j :: lo <= i <= hi && lo <= j <= hi && i != j && FindPaths(lo, hi)[k] == FindPathLine(i, j)
  {
    GridOnly(lo, hi + 1, hi, k);
    var p := QueryPairs(lo, hi)[k];
    assert FindPaths(lo, hi)[k] == FindPathLine(p.0, p.1);
  }

  /**
   * `correctness_graph_queries`: the bounds pass, then per strategy the
   * edge-add lines followed by the `find-path` section. A line on which the
   * bounds pass raises stops everything before any workload is written.
   */
  method CorrectnessGraphQueries(graph: seq<string>) returns (r: Result<Workloads, GraphError>)
    ensures r.Err? <==> Bounds(graph).Err?
    ensures r.Err? ==> r.error == Bounds(graph).error
    ensures r.Ok? ==> (Edges(graph).Ok?
                       && r.value.brute == AddLines(Brute, Edges(graph).value) + FindPaths(Bounds(graph).value.0, Bounds(graph).value.1)
                       && r.value.smart == AddLines(Smart, Edges(graph).value) + FindPaths(Bounds(graph).value.0, Bounds(graph).value.1))
    ensures r.Ok? ==> |r.value.brute| == |r.value.smart| && r.value.brute[|graph|..] == r.value.smart[|graph|..]
    ensures graph == [] ==> r == Ok(Workloads([], []))
  {
    var bounds := VertexBounds(graph);
    if bounds.Err? {
      return Err(bounds.error);
    }
    var (lo, hi) := bounds.value;
    BoundsOkEdgesOk(graph);
    var bruteAdds, _ := WriteAddLines(Brute, graph);
    var brutePaths := FindPathQueries(lo, hi);
    var smartAdds, _ := WriteAddLines(Smart, graph);
    var smartPaths := FindPathQueries(lo, hi);
    r := Ok(Workloads(bruteAdds + brutePaths, smartAdds + smartPaths));
    assert (bruteAdds + brutePaths)[|graph|..] == brutePaths;
    assert (smartAdds + smartPaths)[|graph|..] == smartPaths;
  }
}
