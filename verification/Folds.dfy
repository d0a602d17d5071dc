/** Folds of a sequence by an associative operation with an identity. */
module Folds {

  datatype Monoid<!T> = Monoid(op: (T, T) -> T, id: T)

  /** The operation need not commute. */
  ghost predicate Lawful<T(!new)>(m: Monoid<T>) {
    && (forall a, b, c :: m.op(m.op(a, b), c) == m.op(a, m.op(b, c)))
    && (forall a :: m.op(m.id, a) == a && m.op(a, m.id) == a)
  }

  /** Left to right. */
  function Fold<T>(m: Monoid<T>, s: seq<T>): T {
    if s == [] then m.id else m.op(Fold(m, s[..|s| - 1]), s[|s| - 1])
  }

  lemma {:induction false} FoldConcat<T(!new)>(m: Monoid<T>, a: seq<T>, b: seq<T>)
    requires Lawful(m)
    ensures Fold(m, a + b) == m.op(Fold(m, a), Fold(m, b))
  {
    if b == [] {
      assert a + b == a;
    } else {
      assert (a + b)[..|a + b| - 1] == a + b[..|b| - 1];
      FoldConcat(m, a, b[..|b| - 1]);
    }
  }

  /** Two adjacent stretches of s fold to the fold of their union. */
  lemma FoldSplit<T(!new)>(m: Monoid<T>, s: seq<T>, lo: nat, mid: nat, hi: nat)
    requires Lawful(m) && lo <= mid <= hi <= |s|
    ensures Fold(m, s[lo..hi]) == m.op(Fold(m, s[lo..mid]), Fold(m, s[mid..hi]))
  {
    assert s[lo..hi] == s[lo..mid] + s[mid..hi];
    FoldConcat(m, s[lo..mid], s[mid..hi]);
  }

  lemma FoldOne<T(!new)>(m: Monoid<T>, x: T)
    requires Lawful(m)
    ensures Fold(m, [x]) == x && Fold(m, []) == m.id
  {
    assert [x][..0] == [];
  }

  /** There is always another name for an accumulator. */
  lemma {:induction false} NewName(used: set<nat>) returns (z: nat)
    ensures z !in used && forall x | x in used :: x < z
    decreases used
  {
    if forall x :: x !in used {
      z := 0;
    } else {
      var x :| x in used;
      z := NewName(used - {x});
      assert forall y | y in used :: y == x || y in used - {x};
      if z <= x {
        z := x + 1;
      }
    }
  }
}
