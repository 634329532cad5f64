/**
 * The bounded retry loop around the map service's HTTP request. Attempts are
 * numbered from 1; the reply each attempt gets is a parameter `reply`, so the
 * network, the timeout and the JSON decoder stay outside the model. The first
 * attempt that gets a decoded body ends the loop with that body; between two
 * failed attempts the loop sleeps `retryDelay` seconds, never after the last
 * one; when every attempt fails the result is the empty object `{}`.
 */
module Fetcher {
  import opened Wrappers
  import opened Feed
  import opened Settings

  /**
   * What one attempt gets: a decoded body, or a request exception (connection
   * error, timeout, an HTTP error status raised by `raise_for_status`).
   */
  datatype Reply<J> = Received(body: Document<J>) | RequestFailed

  /** The observable steps of the loop: a request made, a pause taken. */
  datatype Event = Request(attempt: nat) | Sleep(seconds: nat)

  /** The number of the first attempt in `from..last` that gets a body, if any. */
  function FirstSuccess<J>(reply: nat -> Reply<J>, from: nat, last: int): (r: Option<nat>)
    decreases if from <= last then last - from + 1 else 0
    ensures r.Some? ==>
      && from <= r.value <= last && reply(r.value).Received?
      && forall a :: from <= a < r.value ==> reply(a).RequestFailed?
    ensures r.None? ==> forall a :: from <= a <= last ==> reply(a).RequestFailed?
  {
    if from > last then None
    else if reply(from).Received? then Some(from)
    else FirstSuccess(reply, from + 1, last)
  }

  /** The number of attempts the loop makes with `maxRetries` allowed. */
  function AttemptsMade<J>(reply: nat -> Reply<J>, maxRetries: int): nat
  {
    match FirstSuccess(reply, 1, maxRetries)
    case Some(a) => a
    case None => if maxRetries < 0 then 0 else maxRetries
  }

  /** What the fetcher returns: the first body received, or `{}`. */
  function FetchResult<J>(reply: nat -> Reply<J>, maxRetries: int): Document<J>
  {
    match FirstSuccess(reply, 1, maxRetries)
    case Some(a) => reply(a).body
    case None => EmptyObject()
  }

  /** The events of `n` attempts: requests numbered 1 to `n`, a pause between each two. */
  function RetryTrace(n: nat, delay: nat): seq<Event>
  {
    if n == 0 then []
    else if n == 1 then [Request(1)]
    else RetryTrace(n - 1, delay) + [Sleep(delay), Request(n)]
  }

  /** The trace after `done` failed attempts: a pause follows each one but the last allowed. */
  function FailedSoFar(done: nat, maxRetries: int, delay: nat): seq<Event>
  {
    if done == 0 then []
    else RetryTrace(done, delay) + (if done < maxRetries then [Sleep(delay)] else [])
  }

  /** `fetch_deepstatemap_data`. */
  method FetchDeepStateMapData<J>(cfg: Config, reply: nat -> Reply<J>) returns (doc: Document<J>, trace: seq<Event>)
    ensures doc == FetchResult(reply, cfg.maxRetries)
    ensures trace == RetryTrace(AttemptsMade(reply, cfg.maxRetries), cfg.retryDelay)
  {
    var attempt: nat := 1;
    trace := [];
    while attempt <= cfg.maxRetries
      invariant attempt <= 1 || attempt <= cfg.maxRetries + 1
      invariant forall a :: 1 <= a < attempt ==> reply(a).RequestFailed?
      invariant trace == FailedSoFar(attempt - 1, cfg.maxRetries, cfg.retryDelay)
      decreases cfg.maxRetries - attempt
    {
      assert attempt > 1 ==> trace == RetryTrace(attempt - 1, cfg.retryDelay) + [Sleep(cfg.retryDelay)];
      trace := trace + [Request(attempt)];
      assert trace == RetryTrace(attempt, cfg.retryDelay);
      match reply(attempt)
      case Received(body) =>
        doc := body;
        return;
      case RequestFailed =>
        if attempt < cfg.maxRetries {
          trace := trace + [Sleep(cfg.retryDelay)];
        }
        attempt := attempt + 1;
    }
    doc := EmptyObject();
  }

  /** The `k`-th event of a retry trace: requests at even places, pauses at odd ones. */
  lemma {:induction false} RetryTraceShape(n: nat, delay: nat)
    ensures |RetryTrace(n, delay)| == if n == 0 then 0 else 2 * n - 1
    ensures forall k :: 0 <= k < |RetryTrace(n, delay)| ==>
      RetryTrace(n, delay)[k] == if k % 2 == 0 then Request(k / 2 + 1) else Sleep(delay)
  {
    if n > 1 {
      RetryTraceShape(n - 1, delay);
      var t := RetryTrace(n, delay);
      var prev := RetryTrace(n - 1, delay);
      forall k | 0 <= k < |t|
        ensures t[k] == if k % 2 == 0 then Request(k / 2 + 1) else Sleep(delay)
      {
        if k < |prev| {
          assert t[k] == prev[k];
        }
      }
    }
  }

  function Requests(trace: seq<Event>): nat
  {
    if trace == [] then 0 else (if trace[0].Request? then 1 else 0) + Requests(trace[1..])
  }

  function Sleeps(trace: seq<Event>): nat
  {
    if trace == [] then 0 else (if trace[0].Sleep? then 1 else 0) + Sleeps(trace[1..])
  }

  lemma {:induction false} CountsOfAppend(a: seq<Event>, b: seq<Event>)
    ensures Requests(a + b) == Requests(a) + Requests(b)
    ensures Sleeps(a + b) == Sleeps(a) + Sleeps(b)
  {
    if a == [] {
      assert a + b == b;
    } else {
      assert (a + b)[0] == a[0] && (a + b)[1..] == a[1..] + b;
      CountsOfAppend(a[1..], b);
    }
  }

  /** `n` attempts make `n` requests and `n - 1` pauses, and end with the last request. */
  lemma {:induction false} RetryTraceCounts(n: nat, delay: nat)
    requires n >= 1
    ensures Requests(RetryTrace(n, delay)) == n
    ensures Sleeps(RetryTrace(n, delay)) == n - 1
    ensures RetryTrace(n, delay)[|RetryTrace(n, delay)| - 1] == Request(n)
  {
    if n > 1 {
      RetryTraceCounts(n - 1, delay);
      var step := [Sleep(delay), Request(n)];
      CountsOfAppend(RetryTrace(n - 1, delay), step);
      var last := [Request(n)];
      assert step[1..] == last && last[1..] == [];
      assert Requests(last) == 1 && Sleeps(last) == 0;
      assert Requests(step) == 1 && Sleeps(step) == 1;
    }
  }

  /**
   * A service that never answers: every allowed attempt is made, with a pause
   * between each two and none after the last, and the result is `{}`.
   */
  lemma AlwaysFailing<J>(reply: nat -> Reply<J>, maxRetries: int, delay: nat)
    requires forall a :: reply(a).RequestFailed?
    requires maxRetries >= 1
    ensures FetchResult(reply, maxRetries) == EmptyObject()
    ensures !Truthy(FetchResult(reply, maxRetries))
    ensures AttemptsMade(reply, maxRetries) == maxRetries
    ensures Requests(RetryTrace(AttemptsMade(reply, maxRetries), delay)) == maxRetries
    ensures Sleeps(RetryTrace(AttemptsMade(reply, maxRetries), delay)) == maxRetries - 1
    ensures RetryTrace(AttemptsMade(reply, maxRetries), delay)[|RetryTrace(AttemptsMade(reply, maxRetries), delay)| - 1]
            == Request(maxRetries)
  {
    RetryTraceCounts(maxRetries, delay);
  }

  /**
   * The first attempt that gets a body ends the loop: its body is the result, and
   * it is the last request made.
   */
  lemma StopsAtFirstSuccess<J>(reply: nat -> Reply<J>, maxRetries: int, delay: nat, a: nat)
    requires 1 <= a <= maxRetries && reply(a).Received?
    requires forall b :: 1 <= b < a ==> reply(b).RequestFailed?
    ensures FetchResult(reply, maxRetries) == reply(a).body
    ensures AttemptsMade(reply, maxRetries) == a
    ensures Requests(RetryTrace(AttemptsMade(reply, maxRetries), delay)) == a
    ensures Sleeps(RetryTrace(AttemptsMade(reply, maxRetries), delay)) == a - 1
  {
    RetryTraceCounts(a, delay);
  }

  /** With no attempt allowed nothing is requested and the result is `{}`. */
  lemma NoAttemptAllowed<J>(reply: nat -> Reply<J>, maxRetries: int, delay: nat)
    requires maxRetries <= 0
    ensures FetchResult(reply, maxRetries) == EmptyObject()
    ensures RetryTrace(AttemptsMade(reply, maxRetries), delay) == []
  {
  }

  /** The attempts made stay within the budget, and every one but the last failed. */
  lemma AttemptsWithinBudget<J>(reply: nat -> Reply<J>, maxRetries: int)
    ensures AttemptsMade(reply, maxRetries) <= if maxRetries < 0 then 0 else maxRetries
    ensures forall a :: 1 <= a < AttemptsMade(reply, maxRetries) ==> reply(a).RequestFailed?
  {
  }
}
