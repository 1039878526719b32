/**
 * Acquiring the client session (tgarchive/sync.py:115-170). In takeout (bulk export)
 * mode the engine makes at most three attempts to open a takeout session; what the
 * remote service answers to attempt k is the input `outcome(k)`. Approval pending
 * makes the engine wait for the operator (a prompt) and try again; an invalidated
 * session is only logged and also tried again; any other error escapes.
 */
module Takeout {
  import opened Wrappers

  datatype AttemptOutcome = Granted | InitDelay | Invalid | OtherError(error: string)

  /** The client the run proceeds with, or the error that ends it before any fetch. */
  datatype ClientResult =
    | PlainClient
    | TakeoutClient(attempt: nat)
    | StartupFailure(error: string)

  const MaxAttempts: nat := 3
  const Exhausted := "could not initiate takeout."

  /** Outcomes that make the engine try again. */
  predicate Retried(o: AttemptOutcome) {
    o == InitDelay || o == Invalid
  }

  /** Number of operator prompts among attempts `k` up to `j` (exclusive). */
  function Prompts(outcome: nat -> AttemptOutcome, k: nat, j: nat): (c: nat)
    requires k <= j
    ensures c <= j - k
    decreases j - k
  {
    if k == j then 0 else Prompts(outcome, k, j - 1) + (if outcome(j - 1) == InitDelay then 1 else 0)
  }

  /** The attempts from `k` on: the client obtained and the prompts shown on the way. */
  function AcquireFrom(outcome: nat -> AttemptOutcome, k: nat): (ClientResult, nat)
    requires k <= MaxAttempts
    decreases MaxAttempts - k
  {
    if k == MaxAttempts then (StartupFailure(Exhausted), 0)
    else match outcome(k)
      case Granted => (TakeoutClient(k), 0)
      case OtherError(e) => (StartupFailure(e), 0)
      case InitDelay => var (r, p) := AcquireFrom(outcome, k + 1); (r, p + 1)
      case Invalid => AcquireFrom(outcome, k + 1)
  }

  /** `new_client` after the client has started. */
  function Acquire(useTakeout: bool, outcome: nat -> AttemptOutcome): (ClientResult, nat) {
    if useTakeout then AcquireFrom(outcome, 0) else (PlainClient, 0)
  }

  /** Attempts k, ..., a - 1 were all retried. */
  predicate RetriedUpTo(outcome: nat -> AttemptOutcome, k: nat, a: nat) {
    forall j :: k <= j < a ==> Retried(outcome(j))
  }

  /**
   * A takeout session comes from a granted attempt among the first three that only
   * retried attempts preceded, and the prompts shown are those of the pending
   * approvals before it.
   */
  lemma {:induction false} AcquireGranted(outcome: nat -> AttemptOutcome, k: nat)
    requires k <= MaxAttempts
    ensures var (r, p) := AcquireFrom(outcome, k);
      r.TakeoutClient? ==>
        && k <= r.attempt < MaxAttempts && outcome(r.attempt) == Granted
        && RetriedUpTo(outcome, k, r.attempt)
        && p == Prompts(outcome, k, r.attempt)
    decreases MaxAttempts - k
  {
    if k < MaxAttempts && Retried(outcome(k)) {
      AcquireGranted(outcome, k + 1);
      var (r, p) := AcquireFrom(outcome, k);
      if r.TakeoutClient? {
        PromptsShift(outcome, k, r.attempt);
      }
    }
  }

  /** Conversely, such a granted attempt always yields the takeout session. */
  lemma {:induction false} AcquireReachesGrant(outcome: nat -> AttemptOutcome, k: nat, a: nat)
    requires k <= a < MaxAttempts && outcome(a) == Granted && RetriedUpTo(outcome, k, a)
    ensures AcquireFrom(outcome, k).0 == TakeoutClient(a)
    decreases a - k
  {
    if k < a {
      AcquireReachesGrant(outcome, k + 1, a);
    }
  }

  /** Three retried attempts end the run with the exhaustion error, after one prompt per pending approval. */
  lemma {:induction false} AcquireExhausted(outcome: nat -> AttemptOutcome, k: nat)
    requires k <= MaxAttempts && RetriedUpTo(outcome, k, MaxAttempts)
    ensures AcquireFrom(outcome, k) == (StartupFailure(Exhausted), Prompts(outcome, k, MaxAttempts))
    decreases MaxAttempts - k
  {
    if k < MaxAttempts {
      AcquireExhausted(outcome, k + 1);
      PromptsShift(outcome, k, MaxAttempts);
    }
  }

  /** Any other failure is the error of an attempt that only retried attempts preceded. */
  lemma {:induction false} AcquireError(outcome: nat -> AttemptOutcome, k: nat)
    requires k <= MaxAttempts && !RetriedUpTo(outcome, k, MaxAttempts)
    ensures var r := AcquireFrom(outcome, k).0;
      r.StartupFailure? ==>
        exists a :: k <= a < MaxAttempts && outcome(a) == OtherError(r.error) && RetriedUpTo(outcome, k, a)
    decreases MaxAttempts - k
  {
    var r := AcquireFrom(outcome, k).0;
    if Retried(outcome(k)) {
      AcquireError(outcome, k + 1);
      if r.StartupFailure? {
        var a :| k + 1 <= a < MaxAttempts && outcome(a) == OtherError(r.error) && RetriedUpTo(outcome, k + 1, a);
        assert RetriedUpTo(outcome, k, a);
      }
    } else if r.StartupFailure? {
      assert RetriedUpTo(outcome, k, k);
    }
  }

  /** Counting prompts from k is the prompt at k plus those from k + 1. */
  lemma {:induction false} PromptsShift(outcome: nat -> AttemptOutcome, k: nat, j: nat)
    requires k < j
    ensures Prompts(outcome, k, j) == (if outcome(k) == InitDelay then 1 else 0) + Prompts(outcome, k + 1, j)
    decreases j - k
  {
    if j > k + 1 {
      PromptsShift(outcome, k, j - 1);
    }
  }

  /**
   * `new_client` as the engine runs it: a counted loop of at most three attempts,
   * prompting the operator whenever approval is pending.
   */
  method NewClient(useTakeout: bool, outcome: nat -> AttemptOutcome) returns (r: ClientResult, prompts: nat)
    ensures (r, prompts) == Acquire(useTakeout, outcome)
  {
    if !useTakeout {
      return PlainClient, 0;
    }
    prompts := 0;
    var retry: nat := 0;
    while retry < MaxAttempts
      invariant retry <= MaxAttempts
      invariant forall j :: 0 <= j < retry ==> Retried(outcome(j))
      invariant prompts == Prompts(outcome, 0, retry)
      invariant var (r0, p0) := AcquireFrom(outcome, retry); AcquireFrom(outcome, 0) == (r0, prompts + p0)
    {
      var o := outcome(retry);
      if o == Granted {
        return TakeoutClient(retry), prompts;
      } else if o.OtherError? {
        return StartupFailure(o.error), prompts;
      } else if o == InitDelay {
        prompts := prompts + 1;
      }
      retry := retry + 1;
    }
    return StartupFailure(Exhausted), prompts;
  }
}
