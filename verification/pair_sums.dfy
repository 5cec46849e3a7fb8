/** Sums of a pair function over neighbour rows and over index triangles: the
    bookkeeping behind the two summation modes of the short-range energy. A
    pair function `g(i, j)` gives the contribution of particle `j` to the row
    of particle `i`. */
module PairSums {

  /** The sum of `f(i, s[t])` over the entries of `s`, in order. */
  function RowSum(f: (nat, nat) -> real, i: nat, s: seq<nat>): real
  {
    if s == [] then 0.0 else RowSum(f, i, s[..|s| - 1]) + f(i, s[|s| - 1])
  }

  /** A row sum over a concatenation splits into the two row sums. */
  lemma {:induction false} RowSumAppend(f: (nat, nat) -> real, i: nat, u: seq<nat>, v: seq<nat>)
    ensures RowSum(f, i, u + v) == RowSum(f, i, u) + RowSum(f, i, v)
    decreases |v|
  {
    if v == [] {
      assert u + v == u;
    } else {
      assert (u + v)[..|u + v| - 1] == u + v[..|v| - 1];
      RowSumAppend(f, i, u, v[..|v| - 1]);
    }
  }

  /** Reordering the entries of a row does not change its sum. */
  lemma {:induction false} RowSumPermutation(f: (nat, nat) -> real, i: nat, a: seq<nat>, b: seq<nat>)
    requires multiset(a) == multiset(b)
    ensures RowSum(f, i, a) == RowSum(f, i, b)
    decreases |a|
  {
    if a == [] {
      assert |b| == |multiset(b)| == 0;
    } else {
      var x := a[|a| - 1];
      var a' := a[..|a| - 1];
      assert a == a' + [x];
      assert x in multiset(b);
      var k :| 0 <= k < |b| && b[k] == x;
      RemoveOne(a', x, b, k);
      RowSumPermutation(f, i, a', b[..k] + b[k + 1..]);
      RowSumRemoveOne(f, i, b, k);
    }
  }

  /** Removing one occurrence of `x` from both sides keeps two multisets equal. */
  lemma RemoveOne(a: seq<nat>, x: nat, b: seq<nat>, k: nat)
    requires k < |b| && b[k] == x && multiset(a + [x]) == multiset(b)
    ensures multiset(a) == multiset(b[..k] + b[k + 1..])
  {
    var u, v := b[..k], b[k + 1..];
    assert b == u + [x] + v;
    assert multiset(b) == multiset(u + v) + multiset{x};
    assert multiset(a + [x]) == multiset(a) + multiset{x};
    assert multiset(a) == multiset(a + [x]) - multiset{x};
    assert multiset(u + v) == multiset(b) - multiset{x};
  }

  /** Taking the entry at `k` out of a row removes its term from the sum. */
  lemma RowSumRemoveOne(f: (nat, nat) -> real, i: nat, b: seq<nat>, k: nat)
    requires k < |b|
    ensures RowSum(f, i, b) == RowSum(f, i, b[..k] + b[k + 1..]) + f(i, b[k])
  {
    var u, v := b[..k], b[k + 1..];
    assert b == (u + [b[k]]) + v;
    RowSumAppend(f, i, u + [b[k]], v);
    RowSumAppend(f, i, u, [b[k]]);
    RowSumAppend(f, i, u, v);
    assert [b[k]][..0] == [];
  }

  /** A row sum whose every term is a fixed multiple of another's is that
      multiple of the other sum. */
  lemma {:induction false} RowSumScale(f: (nat, nat) -> real, h: (nat, nat) -> real, i: nat, c: real, s: seq<nat>)
    requires forall t :: 0 <= t < |s| ==> h(i, s[t]) == c * f(i, s[t])
    ensures RowSum(h, i, s) == c * RowSum(f, i, s)
  {
    if s != [] {
      RowSumScale(f, h, i, c, s[..|s| - 1]);
    }
  }

  /** Every term 1: a row sum counts the row's entries. */
  lemma {:induction false} RowSumCounts(f: (nat, nat) -> real, i: nat, s: seq<nat>)
    requires forall j :: f(i, j) == 1.0
    ensures RowSum(f, i, s) == |s| as real
  {
    if s != [] {
      RowSumCounts(f, i, s[..|s| - 1]);
    }
  }

  /** `g(i, j) == g(j, i)` for every pair. */
  ghost predicate SymmetricPairs(g: (nat, nat) -> real)
  {
    forall i, j :: g(i, j) == g(j, i)
  }

  /** A particle never contributes to its own row. */
  ghost predicate ZeroDiagonal(g: (nat, nat) -> real)
  {
    forall i :: g(i, i) == 0.0
  }

  /** The full row: the sum of `g(i, j)` over `j < k`. */
  function FullRow(g: (nat, nat) -> real, i: nat, k: nat): real
  {
    if k == 0 then 0.0 else FullRow(g, i, k - 1) + g(i, k - 1)
  }

  /** The sum of the full rows `i < rows`, each over columns `j < n`. */
  function FullUpTo(g: (nat, nat) -> real, rows: nat, n: nat): real
  {
    if rows == 0 then 0.0 else FullUpTo(g, rows - 1, n) + FullRow(g, rows - 1, n)
  }

  /** The upper row: the sum of `g(i, j)` over `i < j < k`, the inner loop of a
      brute-force pair sum. */
  function UpperRow(g: (nat, nat) -> real, i: nat, k: nat): real
  {
    if k <= i + 1 then 0.0 else UpperRow(g, i, k - 1) + g(i, k - 1)
  }

  /** The sum of the upper rows `i < rows`, each over columns `i < j < n`:
      every unordered pair counted once. */
  function UpperUpTo(g: (nat, nat) -> real, rows: nat, n: nat): real
  {
    if rows == 0 then 0.0 else UpperUpTo(g, rows - 1, n) + UpperRow(g, rows - 1, n)
  }

  /** The column `n` above row `rows`: the sum of `g(i, n)` over `i < rows`. */
  function Column(g: (nat, nat) -> real, rows: nat, n: nat): real
  {
    if rows == 0 then 0.0 else Column(g, rows - 1, n) + g(rows - 1, n)
  }

  /** Adding column `n` to the triangle adds the column above it. */
  lemma {:induction false} UpperGrow(g: (nat, nat) -> real, rows: nat, n: nat)
    requires rows <= n
    ensures UpperUpTo(g, rows, n + 1) == UpperUpTo(g, rows, n) + Column(g, rows, n)
  {
    if rows > 0 {
      UpperGrow(g, rows - 1, n);
    }
  }

  /** Adding column `n` to the square adds the column above it. */
  lemma {:induction false} FullGrow(g: (nat, nat) -> real, rows: nat, n: nat)
    ensures FullUpTo(g, rows, n + 1) == FullUpTo(g, rows, n) + Column(g, rows, n)
  {
    if rows > 0 {
      FullGrow(g, rows - 1, n);
    }
  }

  /** For a symmetric pair function, row `n` and column `n` agree. */
  lemma {:induction false} RowIsColumn(g: (nat, nat) -> real, n: nat, k: nat)
    requires SymmetricPairs(g)
    ensures FullRow(g, n, k) == Column(g, k, n)
  {
    if k > 0 {
      RowIsColumn(g, n, k - 1);
      assert g(n, k - 1) == g(k - 1, n);
    }
  }

  /** Summing a symmetric pair function with zero diagonal over all ordered
      pairs counts every unordered pair twice. */
  lemma {:induction false} FullIsTwiceUpper(g: (nat, nat) -> real, n: nat)
    requires SymmetricPairs(g) && ZeroDiagonal(g)
    ensures FullUpTo(g, n, n) == 2.0 * UpperUpTo(g, n, n)
  {
    if n > 0 {
      var k := n - 1;
      FullIsTwiceUpper(g, k);
      FullGrow(g, k, k);
      UpperGrow(g, k, k);
      RowIsColumn(g, k, k);
      assert FullRow(g, k, n) == FullRow(g, k, k) + g(k, k);
      assert g(k, k) == 0.0;
      assert UpperRow(g, k, n) == 0.0;
    }
  }

  /** Two pair functions that agree above the diagonal have the same
      triangle sums. */
  lemma {:induction false} UpperAgree(g: (nat, nat) -> real, h: (nat, nat) -> real, rows: nat, n: nat)
    requires rows <= n
    requires forall i: nat, j: nat :: i < j < n ==> g(i, j) == h(i, j)
    ensures UpperUpTo(g, rows, n) == UpperUpTo(h, rows, n)
  {
    if rows > 0 {
      UpperAgree(g, h, rows - 1, n);
      UpperRowAgree(g, h, rows - 1, n, n);
    }
  }

  lemma {:induction false} UpperRowAgree(g: (nat, nat) -> real, h: (nat, nat) -> real, i: nat, k: nat, n: nat)
    requires k <= n
    requires forall i: nat, j: nat :: i < j < n ==> g(i, j) == h(i, j)
    ensures UpperRow(g, i, k) == UpperRow(h, i, k)
  {
    if k > i + 1 {
      UpperRowAgree(g, h, i, k - 1, n);
    }
  }

  /** A triangle of `n` particles holds `n(n-1)/2` pairs: with every term 1,
      the triangle sum counts the pairs the brute-force loop visits. */
  lemma {:induction false} PairCount(g: (nat, nat) -> real, n: nat)
    requires forall i, j :: g(i, j) == 1.0
    ensures UpperUpTo(g, n, n) == (n * (n - 1)) as real / 2.0
  {
    if n > 0 {
      var k := n - 1;
      PairCount(g, k);
      UpperGrow(g, k, k);
      ColumnCounts(g, k, k);
      assert UpperRow(g, k, n) == 0.0;
      assert (n * (n - 1)) as real == (k * (k - 1)) as real + 2.0 * k as real by {
        assert n * (n - 1) == k * (k - 1) + 2 * k;
      }
    }
  }

  lemma {:induction false} ColumnCounts(g: (nat, nat) -> real, rows: nat, n: nat)
    requires forall i, j :: g(i, j) == 1.0
    ensures Column(g, rows, n) == rows as real
  {
    if rows > 0 {
      ColumnCounts(g, rows - 1, n);
    }
  }
}
