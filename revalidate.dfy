/**
 * `revalidate_integrityerror` in apps/core/helpers.py: run a save inside a transaction,
 * and on an IntegrityError re-run validation and try again, at most
 * REVALIDATE_MAX_RETRY times in all, re-raising the first IntegrityError at the end.
 * The save and the validation are callbacks; their outcomes, one per call, are inputs.
 */
module Revalidate {
  import opened Wrappers

  /** REVALIDATE_MAX_RETRY */
  const MaxRetry: nat := 2

  /** What one call of save_func does. */
  datatype SaveAttempt<T> =
    | Saved(value: T)                   // returns a value
    | IntegrityViolation(error: string) // raises IntegrityError
    | Crashed(error: string)            // raises any other exception, which propagates

  /** What the call ends with: a returned value or a propagated exception. */
  datatype Outcome<T> = Returned(value: T) | Raised(error: string)

  /** Attempt i raised IntegrityError and the validation after it passed, so the loop goes on. */
  predicate Continues<T>(saves: seq<SaveAttempt<T>>, checks: seq<Option<string>>, i: nat)
    requires i < |saves| && i < |checks|
  {
    saves[i].IntegrityViolation? && checks[i].None?
  }

  /** The first attempt from `from` on that does not continue, or MaxRetry when all of them do. */
  function Decider<T>(saves: seq<SaveAttempt<T>>, checks: seq<Option<string>>, from: nat): (k: nat)
    requires |saves| >= MaxRetry && |checks| >= MaxRetry && from <= MaxRetry
    ensures from <= k <= MaxRetry
    ensures forall j :: from <= j < k ==> Continues(saves, checks, j)
    ensures k < MaxRetry ==> !Continues(saves, checks, k)
    decreases MaxRetry - from
  {
    if from == MaxRetry || !Continues(saves, checks, from) then from
    else Decider(saves, checks, from + 1)
  }

  /**
   * revalidate_integrityerror. `saves[i]` is what the i-th call of save_func does and
   * `checks[i]` whether the validate_func call after it raises (Some(error)) or not.
   * The first attempt that does not continue decides the outcome; when every attempt
   * hits an integrity error, the first of those errors is re-raised.
   */
  method RevalidateIntegrityError<T>(saves: seq<SaveAttempt<T>>, checks: seq<Option<string>>)
    returns (r: Outcome<T>)
    requires |saves| >= MaxRetry && |checks| >= MaxRetry
    ensures var k := Decider(saves, checks, 0);
            if k == MaxRetry then saves[0].IntegrityViolation? && r == Raised(saves[0].error)
            else match saves[k]
              case Saved(v) => r == Returned(v)
              case Crashed(e) => r == Raised(e)
              case IntegrityViolation(_) => r == Raised(checks[k].value)
  {
    ghost var k := Decider(saves, checks, 0);
    var err: Option<string> := None;
    for i := 0 to MaxRetry
      invariant i <= k
      invariant i == 0 <==> err.None?
      invariant i > 0 ==> saves[0].IntegrityViolation? && err == Some(saves[0].error)
    {
      match saves[i]
      case Saved(v) =>
        return Returned(v);
      case Crashed(e) =>
        return Raised(e);
      case IntegrityViolation(e) =>
        if err.None? {
          err := Some(e);
        }
        if checks[i].Some? {
          return Raised(checks[i].value);
        }
    }
    r := Raised(err.value);
  }
}
