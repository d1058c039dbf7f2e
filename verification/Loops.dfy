/** Loops that a failing step ends. */
module Loops {
  import opened ElfObject

  /** The loop's state after `n` turns. */
  function Fold<S>(step: (nat, S) -> Result<S>, n: nat, start: S): Result<S> {
    if n == 0 then Ok(start)
    else match Fold(step, n - 1, start)
      case Stopped(why) => Stopped(why)
      case Ok(s) => step(n - 1, s)
  }

  lemma {:induction false} FoldStop<S>(step: (nat, S) -> Result<S>, k: nat, n: nat, start: S)
    requires k <= n && Fold(step, k, start).Stopped?
    ensures Fold(step, n, start) == Fold(step, k, start)
    decreases n - k
  {
    if k < n {
      FoldStop(step, k + 1, n, start);
    }
  }

  /** What every turn keeps holds at the end. */
  lemma {:induction false} FoldInvariant<S(!new)>(step: (nat, S) -> Result<S>, n: nat, start: S, inv: (nat, S) -> bool)
    requires Fold(step, n, start).Ok? && inv(0, start)
    requires forall k: nat, s :: k < n && inv(k, s) && step(k, s).Ok? ==> inv(k + 1, step(k, s).value)
    ensures inv(n, Fold(step, n, start).value)
  {
    if n > 0 {
      FoldInvariant(step, n - 1, start, inv);
    }
  }
}
