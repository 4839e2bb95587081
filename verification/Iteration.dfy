/** Steps that are repeated with one constant after the other, for steps and states of any kind. */
module Iteration {

  /** The first `n` steps. */
  function Iterate<S, C>(f: (S, C) -> S, s: S, cs: seq<C>, n: nat): S
    requires n <= |cs|
  {
    if n == 0 then s else f(Iterate(f, s, cs, n - 1), cs[n - 1])
  }

  /** Where single steps correspond under `h`, so do repeated ones. */
  lemma {:induction false} IterateCorresponds<S(!new), C(!new)>(f: (S, C) -> S, g: (S, C) -> S, h: S -> S, s: S, cs: seq<C>, n: nat)
    requires n <= |cs| && forall t, c :: g(h(t), c) == h(f(t, c))
    ensures Iterate(g, h(s), cs, n) == h(Iterate(f, s, cs, n))
  {
    if n > 0 {
      IterateCorresponds(f, g, h, s, cs, n - 1);
    }
  }
}
