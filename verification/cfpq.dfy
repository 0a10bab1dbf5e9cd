/**
 * The static context-free path query algorithm (`cfpq_static`): seed one
 * matrix per nonterminal from the terminal matrices of the graph through the
 * simple rules `A -> t`, then apply every complex rule `A -> B C` as
 * `M[A] := M[A] | M[B] * M[C]` pass after pass until a whole pass adds no
 * entry, counting the passes.
 */
module Cfpq {
  import opened Wrappers
  import opened BoolMatrix

  /** `A -> t`: nonterminal `l` derives terminal number `r`. */
  datatype SimpleRule = SimpleRule(l: nat, r: nat)

  /** `A -> B C`: nonterminal `l` derives `r1` followed by `r2`. */
  datatype ComplexRule = ComplexRule(l: nat, r1: nat, r2: nat)

  datatype Grammar = Grammar(
    nonterminalCount: nat,
    terminals: seq<string>,
    simpleRules: seq<SimpleRule>,
    complexRules: seq<ComplexRule>)

  /** The graph: its vertex count, and one label with its boolean adjacency matrix per edge label. */
  datatype GraphRepr = GraphRepr(n: nat, edges: seq<string>, terminalMatrices: seq<Relation>)

  /** Every nonterminal a rule names has a matrix. */
  predicate ValidGrammar(g: Grammar)
  {
    && (forall j :: 0 <= j < |g.simpleRules| ==> g.simpleRules[j].l < g.nonterminalCount)
    && (forall j :: 0 <= j < |g.complexRules| ==> RuleWithin(g.complexRules[j], g.nonterminalCount))
  }

  predicate RuleWithin(rule: ComplexRule, count: nat)
  {
    rule.l < count && rule.r1 < count && rule.r2 < count
  }

  /** Every edge label has an `n`-by-`n` matrix. */
  predicate ValidGraph(graph: GraphRepr)
  {
    && |graph.edges| == |graph.terminalMatrices|
    && forall i :: 0 <= i < |graph.terminalMatrices| ==> Bounded(graph.terminalMatrices[i], graph.n)
  }

  /** `ItemMapper_GetPlaceIndex`: the index of `x` among `items`, or `|items|` when it is absent. */
  function PlaceIndex(items: seq<string>, x: string): (r: nat)
    ensures r <= |items|
    ensures r < |items| ==> items[r] == x && x !in items[..r]
    ensures r == |items| <==> x !in items
  {
    if items == [] then 0
    else if items[0] == x then 0
    else
      assert items[1..][..PlaceIndex(items[1..], x)] == items[..PlaceIndex(items[1..], x) + 1][1..];
      1 + PlaceIndex(items[1..], x)
  }

  /**
   * Some simple rule `A -> t` has the label of edge `i` as its terminal `t`:
   * the label is a terminal, and a rule names the index the lookup gives it.
   */
  predicate Produces(graph: GraphRepr, g: Grammar, i: nat, a: nat): (r: bool)
    requires i < |graph.edges|
    ensures r <==> graph.edges[i] in g.terminals
                   && SimpleRule(a, PlaceIndex(g.terminals, graph.edges[i])) in g.simpleRules
  {
    var t := PlaceIndex(g.terminals, graph.edges[i]);
    t != |g.terminals| && SimpleRule(a, t) in g.simpleRules
  }

  /** The last of the first `e` edge labels that produces nonterminal `a`, if any does. */
  function LastProducer(graph: GraphRepr, g: Grammar, a: nat, e: nat): (r: Option<nat>)
    requires e <= |graph.edges|
    ensures r.Some? ==> r.value < e
  {
    if e == 0 then None
    else if Produces(graph, g, e - 1, a) then Some(e - 1)
    else LastProducer(graph, g, a, e - 1)
  }

  /**
   * No label produces `a` exactly when there is no last producer; otherwise
   * the last producer produces `a` and no later label does.
   */
  lemma {:induction false} LastProducerIsLast(graph: GraphRepr, g: Grammar, a: nat, e: nat)
    requires e <= |graph.edges|
    ensures LastProducer(graph, g, a, e).None? <==> forall i :: 0 <= i < e ==> !Produces(graph, g, i, a)
    ensures LastProducer(graph, g, a, e).Some? ==>
              var p := LastProducer(graph, g, a, e).value;
              Produces(graph, g, p, a) && forall i :: p < i < e ==> !Produces(graph, g, i, a)
  {
    NoLastProducer(graph, g, a, e);
    LastProducerProduces(graph, g, a, e);
  }

  lemma {:induction false} NoLastProducer(graph: GraphRepr, g: Grammar, a: nat, e: nat)
    requires e <= |graph.edges|
    ensures LastProducer(graph, g, a, e).None? <==> forall i :: 0 <= i < e ==> !Produces(graph, g, i, a)
  {
    if e > 0 {
      if Produces(graph, g, e - 1, a) {
        assert LastProducer(graph, g, a, e) == Some(e - 1);
      } else {
        NoLastProducer(graph, g, a, e - 1);
        assert LastProducer(graph, g, a, e) == LastProducer(graph, g, a, e - 1);
      }
    }
  }

  lemma {:induction false} LastProducerProduces(graph: GraphRepr, g: Grammar, a: nat, e: nat)
    requires e <= |graph.edges|
    ensures LastProducer(graph, g, a, e).Some? ==>
              var p := LastProducer(graph, g, a, e).value;
              Produces(graph, g, p, a) && forall i :: p < i < e ==> !Produces(graph, g, i, a)
  {
    if e > 0 {
      if Produces(graph, g, e - 1, a) {
        assert LastProducer(graph, g, a, e) == Some(e - 1);
      } else {
        LastProducerProduces(graph, g, a, e - 1);
        assert LastProducer(graph, g, a, e) == LastProducer(graph, g, a, e - 1);
      }
    }
  }

  /**
   * The matrix of nonterminal `a` once the first `e` edge labels are seeded:
   * each label that produces `a` replaces it by a copy of its own matrix.
   */
  function SeededMatrix(graph: GraphRepr, g: Grammar, a: nat, e: nat, init: Relation): (r: Relation)
    requires ValidGraph(graph) && e <= |graph.edges|
    ensures Bounded(init, graph.n) ==> Bounded(r, graph.n)
  {
    if e == 0 then init
    else if Produces(graph, g, e - 1, a) then graph.terminalMatrices[e - 1]
    else SeededMatrix(graph, g, a, e - 1, init)
  }

  /**
   * Each `GrB_Matrix_dup` replaces the matrix, so the seed of `a` is the
   * matrix of the last label that produces it, or the initial matrix when no
   * label does.
   */
  lemma {:induction false} SeededMatrixIsLastCopy(graph: GraphRepr, g: Grammar, a: nat, e: nat, init: Relation)
    requires ValidGraph(graph) && e <= |graph.edges|
    ensures SeededMatrix(graph, g, a, e, init) ==
              match LastProducer(graph, g, a, e)
              case Some(i) => graph.terminalMatrices[i]
              case None => init
  {
    if e > 0 && !Produces(graph, g, e - 1, a) {
      SeededMatrixIsLastCopy(graph, g, a, e - 1, init);
    }
  }

  /** Seeding one more label: it replaces the matrix of `a` exactly when its terminal has a rule `a -> t`. */
  lemma SeedStep(graph: GraphRepr, g: Grammar, a: nat, i: nat, init: Relation)
    requires ValidGraph(graph) && i < |graph.edges|
    ensures var t := PlaceIndex(g.terminals, graph.edges[i]);
            SeededMatrix(graph, g, a, i + 1, init)
            == if t != |g.terminals| && SimpleRule(a, t) in g.simpleRules then graph.terminalMatrices[i]
               else SeededMatrix(graph, g, a, i, init)
  {
  }

  /**
   * The inner seeding loop for one edge label, terminal `t` and matrix `m`:
   * every simple rule `A -> t` among `rules`, in order, replaces `M[A]` by `m`.
   */
  function CopyForRules(ms: seq<Relation>, rules: seq<SimpleRule>, t: nat, m: Relation): (r: seq<Relation>)
    requires forall j :: 0 <= j < |rules| ==> rules[j].l < |ms|
    ensures |r| == |ms|
  {
    if rules == [] then ms
    else
      var front := CopyForRules(ms, rules[..|rules| - 1], t, m);
      var rule := rules[|rules| - 1];
      if rule.r == t then front[rule.l := m] else front
  }

  /** After the inner seeding loop, `M[A]` is `m` exactly when some rule `A -> t` was seen, and unchanged otherwise. */
  lemma {:induction false} CopyForRulesAt(ms: seq<Relation>, rules: seq<SimpleRule>, t: nat, m: Relation, a: nat)
    requires forall j :: 0 <= j < |rules| ==> rules[j].l < |ms|
    requires a < |ms|
    ensures CopyForRules(ms, rules, t, m)[a] == if SimpleRule(a, t) in rules then m else ms[a]
  {
    if rules != [] {
      var front := rules[..|rules| - 1];
      CopyForRulesAt(ms, front, t, m, a);
      assert rules == front + [rules[|rules| - 1]];
    }
  }

  /** `M` is contained, matrix by matrix, in `X`. */
  predicate Below(m: seq<Relation>, x: seq<Relation>)
  {
    |m| == |x| && forall k :: 0 <= k < |m| ==> m[k] <= x[k]
  }

  /** Every complex rule holds of `m`: `M[B] * M[C]` is contained in `M[A]`. */
  predicate IsFixpoint(m: seq<Relation>, rules: seq<ComplexRule>)
  {
    forall j :: 0 <= j < |rules| ==>
      (RuleWithin(rules[j], |m|) && Compose(m[rules[j].r1], m[rules[j].r2]) <= m[rules[j].l])
  }

  /** `X` contains `base` and is closed under every complex rule. */
  predicate ClosedAbove(x: seq<Relation>, base: seq<Relation>, rules: seq<ComplexRule>)
  {
    Below(base, x) && IsFixpoint(x, rules)
  }

  /**
   * One complex-rule step, as a function of the matrices: only the rule's own
   * matrix changes, it only grows, and afterwards it holds the product of the
   * rule's two operands as they were before the step.
   */
  function Step(m: seq<Relation>, rule: ComplexRule): (r: seq<Relation>)
    requires RuleWithin(rule, |m|)
    ensures |r| == |m| && Below(m, r)
    ensures Compose(m[rule.r1], m[rule.r2]) <= r[rule.l]
    ensures forall k :: 0 <= k < |m| && k != rule.l ==> r[k] == m[k]
  {
    m[rule.l := m[rule.l] + Compose(m[rule.r1], m[rule.r2])]
  }

  /**
   * A step never leaves a family that is closed under the rule and contains
   * the matrices: so every matrix stays below the least closed family.
   */
  lemma StepStaysBelow(m: seq<Relation>, x: seq<Relation>, rule: ComplexRule)
    requires RuleWithin(rule, |m|) && Below(m, x)
    requires Compose(x[rule.r1], x[rule.r2]) <= x[rule.l]
    ensures Below(Step(m, rule), x)
  {
    ComposeMonotone(m[rule.r1], m[rule.r2], x[rule.r1], x[rule.r2]);
  }

  /** Every matrix of `ms` is `n`-by-`n`. */
  predicate AllBounded(ms: seq<Relation>, n: nat)
  {
    forall k :: 0 <= k < |ms| ==> Bounded(ms[k], n)
  }

  /** Every rule names matrices of `ms`. */
  predicate RulesWithin(rules: seq<ComplexRule>, count: nat)
  {
    forall j :: 0 <= j < |rules| ==> RuleWithin(rules[j], count)
  }

  /** A step keeps every matrix `n`-by-`n`. */
  lemma StepBounded(ms: seq<Relation>, rule: ComplexRule, n: nat)
    requires RuleWithin(rule, |ms|) && AllBounded(ms, n)
    ensures AllBounded(Step(ms, rule), n)
  {
    ComposeBounded(ms[rule.r1], ms[rule.r2], n);
  }

  /** A step changes the entry count of its rule's matrix exactly when it changes the matrices. */
  lemma StepChangesCount(ms: seq<Relation>, rule: ComplexRule)
    requires RuleWithin(rule, |ms|)
    ensures |Step(ms, rule)[rule.l]| != |ms[rule.l]| <==> Step(ms, rule) != ms
  {
    var grown := ms[rule.l] + Compose(ms[rule.r1], ms[rule.r2]);
    GrowthChangesSize(ms[rule.l], grown);
    if Step(ms, rule) == ms {
      assert grown == Step(ms, rule)[rule.l];
    }
  }

  /** The matrices after applying the first rules of a pass, one step each, in order. */
  function RunPass(ms: seq<Relation>, rules: seq<ComplexRule>): (r: seq<Relation>)
    requires RulesWithin(rules, |ms|)
    ensures |r| == |ms|
  {
    if rules == [] then ms
    else Step(RunPass(ms, rules[..|rules| - 1]), rules[|rules| - 1])
  }

  /** Growing the matrices only adds to the total; growing them strictly adds at least one entry. */
  lemma {:induction false} TotalGrows(a: seq<Relation>, b: seq<Relation>)
    requires Below(a, b)
    ensures Total(a) <= Total(b)
    ensures a != b ==> Total(a) < Total(b)
  {
    if a != [] {
      var a', b' := a[..|a| - 1], b[..|b| - 1];
      TotalGrows(a', b');
      GrowthChangesSize(a[|a| - 1], b[|b| - 1]);
      if a != b && a' == b' {
        assert a[|a| - 1] != b[|b| - 1];
      }
    }
  }

  /** A pass keeps every matrix `n`-by-`n`. */
  lemma {:induction false} PassBounded(ms: seq<Relation>, rules: seq<ComplexRule>, n: nat)
    requires RulesWithin(rules, |ms|) && AllBounded(ms, n)
    ensures AllBounded(RunPass(ms, rules), n)
  {
    if rules != [] {
      var front := rules[..|rules| - 1];
      PassBounded(ms, front, n);
      StepBounded(RunPass(ms, front), rules[|rules| - 1], n);
    }
  }

  /** A pass adds at least one entry whenever it changes anything. */
  lemma PassAddsEntry(ms: seq<Relation>, rules: seq<ComplexRule>)
    requires RulesWithin(rules, |ms|) && RunPass(ms, rules) != ms
    ensures Total(RunPass(ms, rules)) > Total(ms)
  {
    PassBelow(ms, rules);
    TotalGrows(ms, RunPass(ms, rules));
  }

  /**
   * A pass that changes nothing leaves a fixpoint: every rule of the pass
   * already held (`matrices_is_changed` stays false only then).
   */
  lemma {:induction false} UnchangedPassIsFixpoint(ms: seq<Relation>, rules: seq<ComplexRule>)
    requires RulesWithin(rules, |ms|) && RunPass(ms, rules) == ms
    ensures IsFixpoint(ms, rules)
  {
    if rules != [] {
      var front := rules[..|rules| - 1];
      var rule := rules[|rules| - 1];
      var mid := RunPass(ms, front);
      PassBelow(ms, front);
      Squeezed(ms, mid);
      UnchangedPassIsFixpoint(ms, front);
      StepUnchangedHolds(ms, rule);
      FixpointExtends(ms, rules);
    }
  }

  /** A fixpoint of all rules but the last that also satisfies the last is a fixpoint of all. */
  lemma FixpointExtends(ms: seq<Relation>, rules: seq<ComplexRule>)
    requires rules != [] && RulesWithin(rules, |ms|) && IsFixpoint(ms, rules[..|rules| - 1])
    requires Compose(ms[rules[|rules| - 1].r1], ms[rules[|rules| - 1].r2]) <= ms[rules[|rules| - 1].l]
    ensures IsFixpoint(ms, rules)
  {
    forall j | 0 <= j < |rules| - 1
      ensures Compose(ms[rules[j].r1], ms[rules[j].r2]) <= ms[rules[j].l]
    {
      assert rules[j] == rules[..|rules| - 1][j];
    }
  }

  /** Matrices squeezed between `a` and `a` are `a`. */
  lemma Squeezed(a: seq<Relation>, b: seq<Relation>)
    requires Below(a, b) && Below(b, a)
    ensures a == b
  {
    assert forall k :: 0 <= k < |a| ==> a[k] == b[k];
  }

  /** A step that changes nothing finds its rule already holding. */
  lemma StepUnchangedHolds(ms: seq<Relation>, rule: ComplexRule)
    requires RuleWithin(rule, |ms|) && Step(ms, rule) == ms
    ensures Compose(ms[rule.r1], ms[rule.r2]) <= ms[rule.l]
  {
    assert Step(ms, rule)[rule.l] == ms[rule.l];
  }

  /**
   * One more step of a pass: it yields the matrices after the first `i + 1`
   * rules, and once it has changed them they differ from the pass's start.
   */
  lemma PassAdvances(ms: seq<Relation>, rules: seq<ComplexRule>, i: nat)
    requires RulesWithin(rules, |ms|) && i < |rules|
    ensures RunPass(ms, rules[..i + 1]) == Step(RunPass(ms, rules[..i]), rules[i])
    ensures RunPass(ms, rules[..i + 1]) != RunPass(ms, rules[..i]) ==> RunPass(ms, rules[..i + 1]) != ms
  {
    var before := RunPass(ms, rules[..i]);
    assert rules[..i + 1][..i] == rules[..i];
    PassBelow(ms, rules[..i]);
    TotalGrows(ms, before);
    TotalGrows(before, Step(before, rules[i]));
  }

  /** A pass only grows the matrices. */
  lemma {:induction false} PassBelow(ms: seq<Relation>, rules: seq<ComplexRule>)
    requires RulesWithin(rules, |ms|)
    ensures Below(ms, RunPass(ms, rules))
  {
    if rules != [] {
      PassBelow(ms, rules[..|rules| - 1]);
    }
  }

  /** Matrices below a family that is closed under the rules stay below it through a pass. */
  lemma {:induction false} PassStaysBelow(ms: seq<Relation>, rules: seq<ComplexRule>, x: seq<Relation>)
    requires RulesWithin(rules, |ms|) && Below(ms, x) && IsFixpoint(x, rules)
    ensures Below(RunPass(ms, rules), x)
  {
    if rules != [] {
      var front := rules[..|rules| - 1];
      assert IsFixpoint(x, front);
      PassStaysBelow(ms, front, x);
      StepStaysBelow(RunPass(ms, front), x, rules[|rules| - 1]);
    }
  }

  /**
   * The number of passes the `while (matrices_is_changed)` loop makes from
   * matrices `ms`: one, plus those from the result when the pass changed
   * something. Every changing pass adds an entry and `n`-by-`n` matrices have
   * room for only so many, so the count is finite.
   */
  function Passes(ms: seq<Relation>, rules: seq<ComplexRule>, n: nat): (r: nat)
    requires RulesWithin(rules, |ms|) && AllBounded(ms, n)
    ensures r >= 1
    ensures r == 1 <==> RunPass(ms, rules) == ms
    decreases |ms| * (n * n) - Total(ms)
  {
    TotalBound(ms, n);
    PassBounded(ms, rules, n);
    TotalBound(RunPass(ms, rules), n);
    if RunPass(ms, rules) == ms then 1
    else
      PassAddsEntry(ms, rules);
      1 + Passes(RunPass(ms, rules), rules, n)
  }

  /** At least one pass is made, and at most one more than the number of entries still free. */
  lemma {:induction false} PassesBound(ms: seq<Relation>, rules: seq<ComplexRule>, n: nat)
    requires RulesWithin(rules, |ms|) && AllBounded(ms, n)
    ensures Total(ms) <= |ms| * (n * n)
    ensures 1 <= Passes(ms, rules, n) <= |ms| * (n * n) - Total(ms) + 1
    decreases |ms| * (n * n) - Total(ms)
  {
    TotalBound(ms, n);
    if RunPass(ms, rules) != ms {
      PassBounded(ms, rules, n);
      PassAddsEntry(ms, rules);
      PassesBound(RunPass(ms, rules), rules, n);
    }
  }

  /** The response: one matrix per nonterminal, and the number of passes made. */
  class Response {
    const matrices: array<Relation>
    var iterationCount: nat
    const n: nat

    ghost predicate Valid()
      reads this, matrices
    {
      AllBounded(matrices[..], n)
    }

    /** `Response_Init`: an empty `n`-by-`n` matrix per nonterminal and no passes yet. */
    constructor Init(count: nat, n: nat)
      ensures Valid() && fresh(matrices)
      ensures this.n == n && matrices.Length == count && iterationCount == 0
      ensures forall k :: 0 <= k < count ==> matrices[k] == {}
    {
      this.n := n;
      matrices := new Relation[count](_ => {});
      iterationCount := 0;
    }

    /**
     * The initialisation loop: for each edge label that is a terminal of the
     * grammar, every simple rule `A -> t` on that terminal replaces `M[A]` by a
     * copy of the label's matrix. Labels that are not terminals change nothing.
     */
    method SeedFromTerminals(graph: GraphRepr, g: Grammar)
      requires Valid() && ValidGraph(graph) && graph.n == n
      requires ValidGrammar(g) && g.nonterminalCount == matrices.Length
      modifies matrices
      ensures Valid()
      ensures forall a :: 0 <= a < matrices.Length ==>
                matrices[a] == SeededMatrix(graph, g, a, |graph.edges|, old(matrices[a]))
    {
      ghost var init := matrices[..];
      var i := 0;
      while i < |graph.edges|
        invariant 0 <= i <= |graph.edges|
        invariant Valid()
        invariant forall a :: 0 <= a < matrices.Length ==> matrices[a] == SeededMatrix(graph, g, a, i, init[a])
      {
        var t := PlaceIndex(g.terminals, graph.edges[i]);
        if t != |g.terminals| {
          ghost var before := matrices[..];
          CopyForTerminal(g.simpleRules, t, graph.terminalMatrices[i]);
          forall a | 0 <= a < matrices.Length
            ensures matrices[a] == SeededMatrix(graph, g, a, i + 1, init[a])
          {
            CopyForRulesAt(before, g.simpleRules, t, graph.terminalMatrices[i], a);
            SeedStep(graph, g, a, i, init[a]);
          }
        } else {
          forall a | 0 <= a < matrices.Length
            ensures matrices[a] == SeededMatrix(graph, g, a, i + 1, init[a])
          {
            SeedStep(graph, g, a, i, init[a]);
          }
        }
        i := i + 1;
      }
    }

    /**
     * The inner seeding loop for one edge label: every simple rule `A -> t`
     * on its terminal `t` replaces `M[A]` by a copy of the label's matrix `m`.
     */
    method CopyForTerminal(rules: seq<SimpleRule>, t: nat, m: Relation)
      requires Valid() && Bounded(m, n)
      requires forall j :: 0 <= j < |rules| ==> rules[j].l < matrices.Length
      modifies matrices
      ensures Valid()
      ensures matrices[..] == CopyForRules(old(matrices[..]), rules, t, m)
    {
      ghost var before := matrices[..];
      var j := 0;
      while j < |rules|
        invariant 0 <= j <= |rules|
        invariant Valid()
        invariant matrices[..] == CopyForRules(before, rules[..j], t, m)
      {
        assert rules[..j + 1][..j] == rules[..j];
        var rule := rules[j];
        if rule.r == t {
          matrices[rule.l] := m;
        }
        j := j + 1;
      }
      assert rules[..j] == rules;
    }

    /** One iteration of the inner `for` loop: apply `rule` with the `LOR` accumulator and report a change of entry count. */
    method ApplyComplexRule(rule: ComplexRule) returns (changed: bool)
      requires Valid() && RuleWithin(rule, matrices.Length)
      modifies matrices
      ensures matrices[..] == Step(old(matrices[..]), rule)
      ensures changed <==> matrices[..] != old(matrices[..])
      ensures Valid()
    {
      ghost var ms := matrices[..];
      var before := matrices[rule.l];
      matrices[rule.l] := before + Compose(matrices[rule.r1], matrices[rule.r2]);
      assert matrices[..] == Step(ms, rule);
      StepBounded(ms, rule, n);
      StepChangesCount(ms, rule);
      changed := |matrices[rule.l]| != |before|;
    }

    /**
     * One pass of the `for` loop over the complex rules: the rules are applied
     * in order, and the pass reports a change exactly when the matrices differ
     * from what they were before it.
     */
    method Pass(rules: seq<ComplexRule>) returns (changed: bool)
      requires Valid() && RulesWithin(rules, matrices.Length)
      modifies matrices
      ensures Valid()
      ensures matrices[..] == RunPass(old(matrices[..]), rules)
      ensures changed <==> matrices[..] != old(matrices[..])
    {
      changed := false;
      ghost var passStart := matrices[..];
      var i := 0;
      while i < |rules|
        invariant 0 <= i <= |rules|
        invariant Valid()
        invariant matrices[..] == RunPass(passStart, rules[..i])
        invariant changed <==> matrices[..] != passStart
      {
        var stepChanged := ApplyComplexRule(rules[i]);
        PassAdvances(passStart, rules, i);
        if stepChanged {
          changed := true;
        }
        i := i + 1;
      }
      assert rules[..i] == rules;
    }

    /**
     * The `while (matrices_is_changed)` loop. On exit every complex rule holds
     * of the matrices, each matrix contains its initial value and lies within
     * every family that contains the initial matrices and is closed under the
     * rules (so the result is the least such family). The pass counter grows by
     * exactly `Passes` of the initial matrices, the final unchanged pass
     * included: at least one and at most one more than the number of entries
     * the matrices can hold.
     */
    method CloseUnderComplexRules(rules: seq<ComplexRule>)
      requires Valid() && RulesWithin(rules, matrices.Length)
      modifies this, matrices
      ensures Valid()
      ensures IsFixpoint(matrices[..], rules)
      ensures Below(old(matrices[..]), matrices[..])
      ensures forall x :: ClosedAbove(x, old(matrices[..]), rules) ==> Below(matrices[..], x)
      ensures iterationCount == old(iterationCount) + Passes(old(matrices[..]), rules, n)
      ensures old(iterationCount) + 1 <= iterationCount <= old(iterationCount) + matrices.Length * (n * n) + 1
    {
      ghost var start := matrices[..];
      ghost var count0 := iterationCount;
      ghost var capacity := matrices.Length * (n * n);
      TotalBound(matrices[..], n);
      var changed := true;
      while changed
        invariant Valid()
        invariant Below(start, matrices[..])
        invariant Total(matrices[..]) <= capacity
        invariant !changed ==> IsFixpoint(matrices[..], rules)
        invariant forall x :: ClosedAbove(x, start, rules) ==> Below(matrices[..], x)
        invariant iterationCount - count0 + (if changed then Passes(matrices[..], rules, n) else 0) == Passes(start, rules, n)
        decreases capacity - Total(matrices[..]), if changed then 1 else 0
      {
        ghost var passStart := matrices[..];
        iterationCount := iterationCount + 1;
        changed := Pass(rules);
        PassBelow(passStart, rules);
        if changed {
          PassAddsEntry(passStart, rules);
        } else {
          UnchangedPassIsFixpoint(passStart, rules);
        }
        forall x | ClosedAbove(x, start, rules) ensures Below(matrices[..], x) {
          PassStaysBelow(passStart, rules, x);
        }
        TotalBound(matrices[..], n);
      }
      PassesBound(start, rules, n);
    }
  }

  /** The initial matrices: each nonterminal's seed from the terminal matrices, empty when no label produces it. */
  function Seeds(graph: GraphRepr, g: Grammar): (r: seq<Relation>)
    requires ValidGraph(graph)
    ensures |r| == g.nonterminalCount && AllBounded(r, graph.n)
  {
    seq(g.nonterminalCount, a requires 0 <= a < g.nonterminalCount => SeededMatrix(graph, g, a, |graph.edges|, {}))
  }

  /**
   * `cfpq_static`: the matrices returned are the least family containing the
   * seeds and closed under every complex rule, and the pass count is the
   * number of passes the loop makes from the seeds.
   */
  method CfpqStatic(graph: GraphRepr, g: Grammar) returns (response: Response)
    requires ValidGraph(graph) && ValidGrammar(g)
    ensures fresh(response) && fresh(response.matrices) && response.Valid()
    ensures response.n == graph.n && response.matrices.Length == g.nonterminalCount
    ensures Below(Seeds(graph, g), response.matrices[..])
    ensures IsFixpoint(response.matrices[..], g.complexRules)
    ensures forall x :: ClosedAbove(x, Seeds(graph, g), g.complexRules) ==> Below(response.matrices[..], x)
    ensures response.iterationCount == Passes(Seeds(graph, g), g.complexRules, graph.n)
    ensures 1 <= response.iterationCount <= g.nonterminalCount * (graph.n * graph.n) + 1
  {
    response := new Response.Init(g.nonterminalCount, graph.n);
    response.SeedFromTerminals(graph, g);
    assert response.matrices[..] == Seeds(graph, g);
    response.CloseUnderComplexRules(g.complexRules);
  }
}
