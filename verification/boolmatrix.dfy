/**
 * Boolean n-by-n sparse matrices, as the CFPQ algorithm uses them through
 * GraphBLAS: a matrix is the set of its stored (row, column) entries, and
 * `GrB_mxm` over the `LOR_LAND` semiring is relational composition.
 */
module BoolMatrix {

  /** The stored entries of a boolean matrix. */
  type Relation = set<(nat, nat)>

  /** Every entry of `m` lies within an `n`-by-`n` matrix. */
  predicate Bounded(m: Relation, n: nat)
  {
    forall p :: p in m ==> p.0 < n && p.1 < n
  }

  /** `A LOR.LAND B`: the entries `(i, k)` joined through some shared `j`. */
  function Compose(a: Relation, b: Relation): (c: Relation)
    ensures a == {} || b == {} ==> c == {}
  {
    set p, q | p in a && q in b && p.1 == q.0 :: (p.0, q.1)
  }

  /** Entry `(i, k)` of `A LOR.LAND B` is present exactly when some `j` has `(i, j)` in `a` and `(j, k)` in `b`. */
  lemma ComposeMeaning(a: Relation, b: Relation)
    ensures forall i, k :: (i, k) in Compose(a, b) <==> exists j :: (i, j) in a && (j, k) in b
  {
    forall i, k, j | (i, j) in a && (j, k) in b ensures (i, k) in Compose(a, b) {
      var p, q := (i, j), (j, k);
      assert p in a && q in b && p.1 == q.0;
    }
  }

  /** The product of two `n`-by-`n` matrices is `n`-by-`n`. */
  lemma ComposeBounded(a: Relation, b: Relation, n: nat)
    requires Bounded(a, n) && Bounded(b, n)
    ensures Bounded(Compose(a, b), n)
  {
    ComposeMeaning(a, b);
    forall p | p in Compose(a, b) ensures p.0 < n && p.1 < n {
      var j :| (p.0, j) in a && (j, p.1) in b;
    }
  }

  /** Composition is monotone in both arguments. */
  lemma ComposeMonotone(a: Relation, b: Relation, a': Relation, b': Relation)
    requires a <= a' && b <= b'
    ensures Compose(a, b) <= Compose(a', b')
  {
    ComposeMeaning(a, b);
    ComposeMeaning(a', b');
    forall p | p in Compose(a, b) ensures p in Compose(a', b') {
      var j :| (p.0, j) in a && (j, p.1) in b;
    }
  }

  /** A row `i` whose columns are below `w` has at most `w` entries. */
  lemma {:induction false} RowSizeBound(s: Relation, i: nat, w: nat)
    requires forall p :: p in s ==> p.0 == i && p.1 < w
    ensures |s| <= w
  {
    if w > 0 {
      var s' := s - {(i, w - 1)};
      RowSizeBound(s', i, w - 1);
    }
  }

  /** A matrix whose rows are below `h` and columns below `w` has at most `h * w` entries. */
  lemma {:induction false} RectangleSizeBound(m: Relation, h: nat, w: nat)
    requires forall p :: p in m ==> p.0 < h && p.1 < w
    ensures |m| <= h * w
  {
    if h > 0 {
      var top := set p | p in m && p.0 == h - 1;
      var rest := m - top;
      assert m == rest + top;
      assert rest * top == {};
      RowSizeBound(top, h - 1, w);
      RectangleSizeBound(rest, h - 1, w);
      assert (h - 1) * w + w == h * w;
    }
  }

  /** An `n`-by-`n` matrix has at most `n * n` entries. */
  lemma SizeBound(m: Relation, n: nat)
    requires Bounded(m, n)
    ensures |m| <= n * n
  {
    RectangleSizeBound(m, n, n);
  }

  /** The total number of entries over a sequence of matrices. */
  function Total(ms: seq<Relation>): nat
  {
    if ms == [] then 0 else Total(ms[..|ms| - 1]) + |ms[|ms| - 1]|
  }

  /** `count` matrices of size `n`-by-`n` hold at most `count * (n * n)` entries. */
  lemma {:induction false} TotalBound(ms: seq<Relation>, n: nat)
    requires forall k :: 0 <= k < |ms| ==> Bounded(ms[k], n)
    ensures Total(ms) <= |ms| * (n * n)
  {
    if ms != [] {
      var front := ms[..|ms| - 1];
      assert forall k :: 0 <= k < |front| ==> front[k] == ms[k];
      TotalBound(front, n);
      SizeBound(ms[|ms| - 1], n);
      assert (|ms| - 1) * (n * n) + n * n == |ms| * (n * n);
    }
  }

  /** A matrix that grew has more entries: for a growing update, "entry count changed" is "matrix changed". */
  lemma GrowthChangesSize(before: Relation, after: Relation)
    requires before <= after
    ensures |after| != |before| <==> after != before
    ensures |after| >= |before|
  {
    var added := after - before;
    assert after == before + added;
    assert before * added == {};
    if after != before {
      assert added != {};
    }
  }
}
