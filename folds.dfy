/** A left fold whose step may fail: the shape of a Python `for` loop whose body can raise. */
module Folds {
  import opened Wrappers

  /** Runs `step` over `xs` from the left, starting at `init`; the first `Err` ends the fold. */
  function Fold<A, S, E>(step: (S, A) -> Result<S, E>, init: S, xs: seq<A>): Result<S, E>
    decreases |xs|
  {
    if xs == [] then Ok(init)
    else
      var acc :- Fold(step, init, xs[..|xs| - 1]);
      step(acc, xs[|xs| - 1])
  }

  /** One more iteration of the loop: the fold over `xs[..i+1]` runs `step` on the fold over `xs[..i]`. */
  lemma FoldStep<A, S, E>(step: (S, A) -> Result<S, E>, init: S, xs: seq<A>, i: nat)
    requires i < |xs|
    ensures Fold(step, init, xs[..i + 1]) ==
            (match Fold(step, init, xs[..i])
             case Err(e) => Err(e)
             case Ok(acc) => step(acc, xs[i]))
  {
    assert xs[..i + 1][..i] == xs[..i];
  }

  /** Once the loop has raised, the whole loop has raised the same error. */
  lemma {:induction false} FoldFailurePersists<A, S, E>(step: (S, A) -> Result<S, E>, init: S, xs: seq<A>, i: nat, e: E)
    requires i <= |xs|
    requires Fold(step, init, xs[..i]) == Err(e)
    ensures Fold(step, init, xs) == Err(e)
    decreases |xs| - i
  {
    if i == |xs| {
      assert xs[..i] == xs;
    } else {
      FoldStep(step, init, xs, i);
      FoldFailurePersists(step, init, xs, i + 1, e);
    }
  }

  /** Running over `a + b` is running over `a`, then over `b` from where `a` left off. */
  lemma {:induction false} FoldAppend<A, S, E>(step: (S, A) -> Result<S, E>, init: S, a: seq<A>, b: seq<A>)
    ensures Fold(step, init, a + b) ==
            (match Fold(step, init, a)
             case Err(e) => Err(e)
             case Ok(acc) => Fold(step, acc, b))
    decreases |b|
  {
    if b == [] {
      assert a + b == a;
    } else {
      var b' := b[..|b| - 1];
      assert (a + b)[..|a + b| - 1] == a + b';
      assert (a + b)[|a + b| - 1] == b[|b| - 1];
      FoldAppend(step, init, a, b');
    }
  }

  /** A property every successful step keeps holds of every successful fold. */
  lemma {:induction false} FoldPreserves<A, S, E>(step: (S, A) -> Result<S, E>, init: S, xs: seq<A>, p: S -> bool)
    requires p(init)
    requires forall s, a :: p(s) && step(s, a).Ok? ==> p(step(s, a).value)
    ensures Fold(step, init, xs).Ok? ==> p(Fold(step, init, xs).value)
    decreases |xs|
  {
    if xs != [] {
      FoldPreserves(step, init, xs[..|xs| - 1], p);
    }
  }
}
