/** Vocabulary shared by every part of the model. */
module Basics {
  datatype Option<+T> = None | Some(value: T)

  /** Coarse failure classes; classifiers map every failure to one of these. */
  datatype ErrorClass =
    | AUTH | PERMISSION | PERMANENT | CONCURRENCY
    | RATE_LIMIT | SERVER_ERROR | TRANSIENT | UNKNOWN

  /** Why a retry run stopped without success. */
  datatype StopReason =
    | MAX_ATTEMPTS_GLOBAL | MAX_ATTEMPTS_PER_CLASS | DEADLINE_EXCEEDED
    | MAX_UNKNOWN_ATTEMPTS | NON_RETRYABLE_CLASS | NO_STRATEGY
    | BUDGET_EXHAUSTED | SCHEDULED | ABORTED

  function Min(a: real, b: real): real { if a <= b then a else b }

  function Max(a: real, b: real): real { if a <= b then b else a }
}
