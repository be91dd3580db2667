/** The retry loops and the once-only completion that the writers and the lookuper rely on. */
module WriterRetry {

  /** What one attempt brought; `Failed` says whether the error is a duplicate or may be retried. */
  datatype Attempt = Delivered(offset: int) | Failed(duplicate: bool, retriable: bool)

  /** What happens around the attempts: the answers, the context after each, and the backoff waits. */
  datatype Course = Course(attempt: nat -> Attempt, expired: nat -> bool, waitFails: nat -> bool)

  datatype Outcome = Outcome(ok: bool, known: bool, offset: int, attempts: nat)

  predicate Succeeds(a: Attempt)
  {
    a.Delivered? || a.duplicate
  }

  /** Attempt `k` of at most `maximum` is the last one made. */
  predicate Stops(course: Course, maximum: nat, k: nat)
  {
    Succeeds(course.attempt(k)) || k == maximum || !course.attempt(k).retriable || course.expired(k) || course.waitFails(k)
  }

  /**
   `executeWriterAttempts`: attempts 1, 2, … up to the first that stops. The batch succeeds
   exactly when that one was stored or is a duplicate, with an offset only if it was stored.
   */
  method ExecuteAttempts(course: Course, maximum: nat) returns (r: Outcome)
    ensures maximum == 0 ==> !r.ok && r.attempts == 0
    ensures maximum > 0 ==>
      1 <= r.attempts <= maximum && Stops(course, maximum, r.attempts)
      && (forall k :: 1 <= k < r.attempts ==> !Stops(course, maximum, k))
      && (r.ok <==> Succeeds(course.attempt(r.attempts)))
      && (r.ok ==> (r.known <==> course.attempt(r.attempts).Delivered?))
      && (r.ok && r.known ==> r.offset == course.attempt(r.attempts).offset)
  {
    var attempt := 1;
    while attempt <= maximum
      invariant 1 <= attempt && (maximum > 0 ==> attempt <= maximum)
      invariant forall k :: 1 <= k < attempt ==> !Stops(course, maximum, k)
      decreases maximum + 1 - attempt
    {
      var a := course.attempt(attempt);
      if Succeeds(a) {
        return Outcome(true, a.Delivered?, if a.Delivered? then a.offset else 0, attempt);
      }
      if attempt == maximum || !a.retriable || course.expired(attempt) {
        return Outcome(false, false, 0, attempt);
      }
      if course.waitFails(attempt) {
        return Outcome(false, false, 0, attempt);
      }
      attempt := attempt + 1;
    }
    return Outcome(false, false, 0, 0);
  }

  /** The caller may try again after attempt `k`. */
  predicate Retries(course: Course, k: nat)
  {
    course.attempt(k).Failed? && course.attempt(k).retriable && !course.expired(k) && !course.waitFails(k)
  }

  /**
   `retryLookup`: attempts 1, 2, … up to the first that is delivered or must not be followed by
   another; a mutation is attempted once. The lookup succeeds exactly when that one was delivered.
   */
  method RetryLookup(course: Course, maximum: nat, mutation: bool) returns (ok: bool, attempts: nat)
    ensures maximum == 0 ==> !ok && attempts == 0
    ensures maximum > 0 ==>
      1 <= attempts <= maximum && (ok <==> course.attempt(attempts).Delivered?)
      && (forall k :: 1 <= k < attempts ==> Retries(course, k)) && (mutation ==> attempts == 1)
      && (!ok ==> mutation || attempts == maximum || !Retries(course, attempts))
  {
    var attempt := 1;
    while attempt <= maximum
      invariant 1 <= attempt && (maximum > 0 ==> attempt <= maximum)
      invariant (forall k :: 1 <= k < attempt ==> Retries(course, k)) && (mutation ==> attempt == 1)
      decreases maximum + 1 - attempt
    {
      var a := course.attempt(attempt);
      if a.Delivered? {
        return true, attempt;
      }
      if mutation || attempt == maximum || !a.retriable || course.expired(attempt) {
        return false, attempt;
      }
      if course.waitFails(attempt) {
        return false, attempt;
      }
      attempt := attempt + 1;
    }
    return false, 0;
  }

  // ----------------------------------------------------------------------- write futures

  /** The buffer slots of a writer; a future returns the one it holds. */
  class Slots {
    var held: nat

    constructor ()
      ensures held == 0
    {
      held := 0;
    }
  }

  /** `WriteFuture`: the first completion sets the result and frees the slot, later ones do nothing. */
  class WriteFuture {
    var done: bool
    var result: int
    var slot: Slots?

    constructor ()
      ensures !done && slot == null
    {
      done, result, slot := false, 0, null;
    }

    /** A queued write holds one slot until it completes. */
    method Hold(slots: Slots)
      requires !done && slot == null
      modifies this, slots
      ensures slot == slots && slots.held == old(slots.held) + 1 && !done
    {
      slots.held := slots.held + 1;
      slot := slots;
    }

    method Complete(outcome: int)
      requires !done && slot != null ==> slot.held > 0
      modifies this, slot
      ensures done && result == (if old(done) then old(result) else outcome) && slot == old(slot)
      ensures slot != null ==> slot.held == old(slot.held) - (if old(done) then 0 else 1)
    {
      if done {
        return;
      }
      result := outcome;
      if slot != null {
        slot.held := slot.held - 1;
      }
      done := true;
    }
  }
}
