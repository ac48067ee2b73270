/**
 * The retry decision an object-processing run takes once its attempt counter
 * has been incremented: finish, retry later (quietly or after a countdown),
 * or give up and hand the error to the task's exception handler.
 */
module RetryPolicy {
  import opened Wrappers

  /** What went wrong while processing an object. */
  datatype Failure =
    | ProcessingError(retry: bool)   // a domain error, which says whether a retry may help
    | Unexpected                     // any other exception

  datatype Verdict =
    | Done                           // no error: the counter is reset
    | RetryQuietly                   // a retryable domain error: the counter is kept
    | RetryAfter(countdown: int)     // an unexpected error: the counter is kept, resubmit after `countdown` seconds
    | GiveUp(failure: Failure)       // the handler gets the error, then the counter is reset

  predicate KeepsCounter(v: Verdict) {
    v.RetryQuietly? || v.RetryAfter?
  }

  /** The decision for attempt number `attempt` (counted from 1). */
  function Judge(attempt: int, maxAttempts: int, delay: int, failure: Option<Failure>): (v: Verdict)
    ensures v == Done <==> failure == None
    ensures v.GiveUp? <==> failure.Some? && (attempt >= maxAttempts || failure.value == ProcessingError(false))
    ensures v.GiveUp? ==> v.failure == failure.value
    ensures v == RetryQuietly <==> failure == Some(ProcessingError(true)) && attempt < maxAttempts
    ensures v.RetryAfter? <==> failure == Some(Unexpected) && attempt < maxAttempts
    ensures v.RetryAfter? ==> v.countdown == attempt * delay
    ensures KeepsCounter(v) ==> attempt < maxAttempts
  {
    match failure
    case None => Done
    case Some(ProcessingError(retry)) =>
      if attempt < maxAttempts && retry then RetryQuietly else GiveUp(failure.value)
    case Some(Unexpected) =>
      if attempt < maxAttempts then RetryAfter(attempt * delay) else GiveUp(Unexpected)
  }

  /** The counter a run leaves behind: the attempt number, or 0 once the key is deleted. */
  function CounterAfter(attempt: int, v: Verdict): (c: int)
    ensures c == 0 || c == attempt
    ensures c == attempt <== KeepsCounter(v)
    ensures !KeepsCounter(v) ==> c == 0
  {
    if KeepsCounter(v) then attempt else 0
  }

  /** One run of the sequence: the attempt number it saw and what it decided. */
  datatype Step = Step(attempt: int, verdict: Verdict)

  /** Consecutive runs on one object, starting from counter `count`, with failures `fs`. */
  function Replay(count: int, maxAttempts: int, delay: int, fs: seq<Option<Failure>>): (steps: seq<Step>)
    ensures |steps| == |fs|
    ensures |fs| > 0 ==> steps[0] == Step(count + 1, Judge(count + 1, maxAttempts, delay, fs[0]))
    decreases |fs|
  {
    if fs == [] then []
    else
      var v := Judge(count + 1, maxAttempts, delay, fs[0]);
      [Step(count + 1, v)] + Replay(CounterAfter(count + 1, v), maxAttempts, delay, fs[1..])
  }

  /** Between runs the counter stays in [0, maxAttempts): one run keeps it there. */
  lemma CounterStaysBelowLimit(count: int, maxAttempts: int, delay: int, f: Option<Failure>)
    requires 0 <= count < maxAttempts
    ensures 0 <= CounterAfter(count + 1, Judge(count + 1, maxAttempts, delay, f)) < maxAttempts
  {
  }

  /** Whatever the failures, every run sees an attempt number between 1 and maxAttempts. */
  lemma {:induction false} AttemptsBounded(count: int, maxAttempts: int, delay: int, fs: seq<Option<Failure>>)
    requires 0 <= count < maxAttempts
    ensures forall i :: 0 <= i < |fs| ==> 1 <= Replay(count, maxAttempts, delay, fs)[i].attempt <= maxAttempts
    decreases |fs|
  {
    if fs != [] {
      var v := Judge(count + 1, maxAttempts, delay, fs[0]);
      var c := CounterAfter(count + 1, v);
      CounterStaysBelowLimit(count, maxAttempts, delay, fs[0]);
      AttemptsBounded(c, maxAttempts, delay, fs[1..]);
      var steps := Replay(count, maxAttempts, delay, fs);
      forall i | 0 <= i < |fs|
        ensures 1 <= steps[i].attempt <= maxAttempts
      {
        if i > 0 {
          assert steps[i] == Replay(c, maxAttempts, delay, fs[1..])[i - 1];
        }
      }
    }
  }

  /**
   * The steps of a failure `f` that keeps coming back, from counter `count`: attempt
   * numbers count + 1, count + 2, …, a retry at every step but the last (after
   * attempt * delay seconds for an unexpected error), and giving up at the last.
   */
  predicate RetriesThenGivesUp(steps: seq<Step>, count: int, delay: int, f: Failure) {
    && |steps| > 0
    && (forall i :: 0 <= i < |steps| ==> steps[i].attempt == count + 1 + i)
    && (forall i :: 0 <= i < |steps| - 1 ==>
          steps[i].verdict == if f == Unexpected then RetryAfter((count + 1 + i) * delay) else RetryQuietly)
    && steps[|steps| - 1].verdict == GiveUp(f)
  }

  /**
   * A failure that keeps coming back is retried until the counter reaches
   * maxAttempts, and then handed to the handler exactly once: runs
   * 1 .. maxAttempts - count - 1 retry with growing attempt numbers (and,
   * for unexpected errors, countdowns attempt * delay), and the last one gives up.
   */
  lemma {:induction false} BoundedRetry(count: int, maxAttempts: int, delay: int, f: Failure)
    requires f != ProcessingError(false)
    requires 0 <= count < maxAttempts
    ensures RetriesThenGivesUp(Replay(count, maxAttempts, delay, seq(maxAttempts - count, _ => Some(f))), count, delay, f)
    decreases maxAttempts - count
  {
    var fs := seq(maxAttempts - count, _ => Some(f));
    var steps := Replay(count, maxAttempts, delay, fs);
    var v := Judge(count + 1, maxAttempts, delay, Some(f));
    if count + 1 == maxAttempts {
      assert steps == [Step(count + 1, v)];
    } else {
      BoundedRetry(count + 1, maxAttempts, delay, f);
      var rest := Replay(count + 1, maxAttempts, delay, seq(maxAttempts - count - 1, _ => Some(f)));
      assert fs[1..] == seq(maxAttempts - count - 1, _ => Some(f));
      assert steps == [Step(count + 1, v)] + rest;
      forall i | 0 <= i < |steps|
        ensures steps[i].attempt == count + 1 + i
      {
        if i > 0 { assert steps[i] == rest[i - 1]; }
      }
      forall i | 0 <= i < |steps| - 1
        ensures steps[i].verdict == if f == Unexpected then RetryAfter((count + 1 + i) * delay) else RetryQuietly
      {
        if i > 0 { assert steps[i] == rest[i - 1]; }
      }
      assert steps[|steps| - 1] == rest[|rest| - 1];
    }
  }
}
