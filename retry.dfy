/** The bounded retry loops of the asynchronous retriever: up to `RETRIVAL_TIMES` attempts,
    the first success returned at once, a sleep after every failed attempt. The remote call
    is an oracle: `outcomes[k]` is what attempt `k + 1` yields (`None` for an exception);
    attempts beyond the end of `outcomes` fail. Sleeps are recorded as durations in
    milliseconds instead of being taken. */
module RetryLoop {
  import opened Seqs

  /** `RETRIVAL_TIMES`. */
  const RetrievalTimes: nat := 5

  /** How long the loop sleeps after failed attempt `k` (counted from 1). */
  datatype Backoff =
    | Quadratic    // asyncio.sleep(0.5 * attempt**2), links request
    | Exponential  // asyncio.sleep(0.5 * 2**attempt), summary request
    | Fixed        // asyncio.sleep(1), design request

  function Pow2(k: nat): nat {
    if k == 0 then 1 else 2 * Pow2(k - 1)
  }

  function DelayMs(policy: Backoff, k: nat): nat {
    match policy
    case Quadratic => 500 * k * k
    case Exponential => 500 * Pow2(k)
    case Fixed => 1000
  }

  /** What attempt `k + 1` yields. */
  function OutcomeAt<T>(outcomes: seq<Option<T>>, k: nat): Option<T> {
    if k < |outcomes| then outcomes[k] else None
  }

  /** The sleeps after the first `n` attempts, when all of them failed. */
  function Delays(policy: Backoff, n: nat): seq<nat> {
    seq(n, (i: nat) => DelayMs(policy, i + 1))
  }

  /** The value returned (`None` when every attempt failed) and the sleeps taken. */
  datatype Attempts<T> = Attempts(result: Option<T>, delays: seq<nat>)

  /** Attempts `k + 1` to `RetrievalTimes`. */
  function RetryFrom<T>(outcomes: seq<Option<T>>, policy: Backoff, k: nat): Attempts<T>
    decreases RetrievalTimes - k
  {
    if k >= RetrievalTimes then Attempts(None, [])
    else match OutcomeAt(outcomes, k)
      case Some(v) => Attempts(Some(v), [])
      case None =>
        var rest := RetryFrom(outcomes, policy, k + 1);
        Attempts(rest.result, [DelayMs(policy, k + 1)] + rest.delays)
  }

  /** The whole retry loop. */
  function Retry<T>(outcomes: seq<Option<T>>, policy: Backoff): Attempts<T> {
    RetryFrom(outcomes, policy, 0)
  }

  lemma {:induction false} RetryFromFirstSuccess<T>(outcomes: seq<Option<T>>, policy: Backoff, k: nat, j: nat)
    requires k <= j < RetrievalTimes && OutcomeAt(outcomes, j).Some?
    requires forall i :: k <= i < j ==> OutcomeAt(outcomes, i).None?
    ensures RetryFrom(outcomes, policy, k) == Attempts(OutcomeAt(outcomes, j), Delays(policy, j)[k..])
    decreases j - k
  {
    if k < j {
      RetryFromFirstSuccess(outcomes, policy, k + 1, j);
      assert Delays(policy, j)[k..] == [DelayMs(policy, k + 1)] + Delays(policy, j)[k + 1..];
    }
  }

  /** When attempt `j + 1` is the first to succeed, its data is returned after the `j` sleeps
      of the failed attempts before it. */
  lemma RetryFirstSuccess<T>(outcomes: seq<Option<T>>, policy: Backoff, j: nat)
    requires j < RetrievalTimes && OutcomeAt(outcomes, j).Some?
    requires forall i :: 0 <= i < j ==> OutcomeAt(outcomes, i).None?
    ensures Retry(outcomes, policy) == Attempts(OutcomeAt(outcomes, j), Delays(policy, j))
  {
    RetryFromFirstSuccess(outcomes, policy, 0, j);
  }

  lemma {:induction false} RetryFromExhausted<T>(outcomes: seq<Option<T>>, policy: Backoff, k: nat)
    requires k <= RetrievalTimes
    requires forall i :: k <= i < RetrievalTimes ==> OutcomeAt(outcomes, i).None?
    ensures RetryFrom(outcomes, policy, k) == Attempts(None, Delays(policy, RetrievalTimes)[k..])
    decreases RetrievalTimes - k
  {
    if k < RetrievalTimes {
      RetryFromExhausted(outcomes, policy, k + 1);
      assert Delays(policy, RetrievalTimes)[k..] ==
             [DelayMs(policy, k + 1)] + Delays(policy, RetrievalTimes)[k + 1..];
    }
  }

  /** When all `RetrievalTimes` attempts fail, nothing is returned and a sleep follows each
      of them, the last one included. */
  lemma RetryExhausted<T>(outcomes: seq<Option<T>>, policy: Backoff)
    requires forall i :: 0 <= i < RetrievalTimes ==> OutcomeAt(outcomes, i).None?
    ensures Retry(outcomes, policy) == Attempts(None, Delays(policy, RetrievalTimes))
  {
    RetryFromExhausted(outcomes, policy, 0);
  }

  /** Attempts are bounded: there are never more than `RetrievalTimes` sleeps, a success
      comes from the attempt right after the last sleep, and no success is missed. */
  lemma {:induction false} RetryBounded<T>(outcomes: seq<Option<T>>, policy: Backoff)
    ensures var r := Retry(outcomes, policy);
      |r.delays| <= RetrievalTimes &&
      (r.result.Some? <==> exists j :: 0 <= j < RetrievalTimes && OutcomeAt(outcomes, j).Some?) &&
      (r.result.Some? ==> |r.delays| < RetrievalTimes && r.result == OutcomeAt(outcomes, |r.delays|))
  {
    if exists j :: 0 <= j < RetrievalTimes && OutcomeAt(outcomes, j).Some? {
      var j := FirstSuccess(outcomes, 0);
      RetryFirstSuccess(outcomes, policy, j);
    } else {
      RetryExhausted(outcomes, policy);
    }
  }

  /** Nothing is returned exactly when the loop slept after every one of its attempts. */
  lemma RetryNoneSleepsEvery<T>(outcomes: seq<Option<T>>, policy: Backoff)
    ensures var r := Retry(outcomes, policy);
      r.result.None? <==> |r.delays| == RetrievalTimes
  {
    RetryBounded(outcomes, policy);
    if Retry(outcomes, policy).result.None? {
      forall i | 0 <= i < RetrievalTimes ensures OutcomeAt(outcomes, i).None? {
      }
      RetryExhausted(outcomes, policy);
    }
  }

  /** The first succeeding attempt at or after `k`, when there is one among the first
      `RetrievalTimes`. */
  function FirstSuccess<T>(outcomes: seq<Option<T>>, k: nat): (j: nat)
    requires k <= RetrievalTimes
    requires exists j :: k <= j < RetrievalTimes && OutcomeAt(outcomes, j).Some?
    ensures k <= j < RetrievalTimes && OutcomeAt(outcomes, j).Some?
    ensures forall i :: k <= i < j ==> OutcomeAt(outcomes, i).None?
    decreases RetrievalTimes - k
  {
    if OutcomeAt(outcomes, k).Some? then k else FirstSuccess(outcomes, k + 1)
  }

  /** The loop `for attempt in range(1, RETRIVAL_TIMES + 1): try: return request() except:
      sleep(...)`, falling through with nothing when every attempt failed. */
  method SendWithRetry<T>(outcomes: seq<Option<T>>, policy: Backoff) returns (result: Option<T>, delays: seq<nat>)
    ensures Attempts(result, delays) == Retry(outcomes, policy)
  {
    delays := [];
    var attempt := 1;
    while attempt <= RetrievalTimes
      invariant 1 <= attempt <= RetrievalTimes + 1
      invariant delays == Delays(policy, attempt - 1)
      invariant forall i :: 0 <= i < attempt - 1 ==> OutcomeAt(outcomes, i).None?
    {
      var response := OutcomeAt(outcomes, attempt - 1);
      if response.Some? {
        RetryFirstSuccess(outcomes, policy, attempt - 1);
        return response, delays;
      }
      delays := delays + [DelayMs(policy, attempt)];
      attempt := attempt + 1;
    }
    RetryExhausted(outcomes, policy);
    result := None;
  }
}
