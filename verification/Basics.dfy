/** What several of the models need and none is about. */
module Basics {
  datatype Option<+T> = None | Some(value: T)

  /** Display lines of a screen, and all the lines of a frame. */
  const SCREEN_H := 192
  const LINES := 263

  ghost predicate Increasing(s: seq<nat>) { forall x, y | 0 <= x < y < |s| :: s[x] < s[y] }

  function Min(a: int, b: int): int { if a < b then a else b }

  function Pow2(k: nat): (r: nat)
    ensures r > 0
  {
    if k == 0 then 1 else 2 * Pow2(k - 1)
  }

  lemma MulOrder(a: int, b: int, c: nat)
    requires a <= b
    ensures a * c <= b * c
  {
  }

  lemma MulApart(a: nat, b: nat, c: nat)
    requires a < b
    ensures a * c + c <= b * c
  {
    MulOrder(a + 1, b, c);
    assert (a + 1) * c == a * c + c;
  }

  lemma DivModUnique(m: nat, p: nat, q: nat, r: nat)
    requires p > 0 && m == q * p + r && r < p
    ensures m / p == q && m % p == r
  {
    var q', r' := m / p, m % p;
    assert m == q' * p + r';
    if q > q' {
      MulApart(q', q, p);
    } else if q < q' {
      MulApart(q, q', p);
    }
  }
}
