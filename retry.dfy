/** The delivery loop of the Discord webhook sender: up to five POSTs of the same payload,
    the outcome of each one deciding whether to stop or to wait and try again.

    The network, the clock and the random number generator are parameters: `responses[k]`
    is what the POST of attempt `k` produced (a status code, or the exception `requests`
    raised) and `jitter[k]` is the value `random.uniform(0, 1)` returns if attempt `k` draws
    one. Waits are recorded, not performed. */
module Retry {

  const MaxRetries: nat := 5
  const BaseDelay: real := 1.0
  const MaxDelay: real := 60.0
  /** A `Retry-After` value above this is read as milliseconds. */
  const MillisecondThreshold: real := 1000.0

  /** The `Retry-After` header of a 429 answer as the sender reads it: absent or empty,
      present but rejected by `float()`, or a number. */
  datatype Header = Missing | Unparsable | Numeric(value: real)

  /** What one `requests.post` produced. `OtherRequestError` is any other
      `RequestException` (an invalid URL, too many redirects, ...). */
  datatype Response =
    | Status(code: int, retryAfter: Header)
    | Timeout
    | ConnectionError
    | OtherRequestError

  /** How a delivery ends: a 200/204 answer, another status, a request error that is not
      retried, all attempts used up (the loop's `else` branch), or an exception that escapes
      the loop and is caught by the sender's outer handler. */
  datatype Ending = Delivered | Rejected(code: int) | RequestFailed | Exhausted | Crashed

  /** What the loop does after one attempt. */
  datatype Action = Stop(ending: Ending) | Wait(delay: real)

  /** The observable course of one delivery: how many POSTs were sent, the waits between
      them, in order, and how it ended. */
  datatype Delivery = Delivery(posts: nat, delays: seq<real>, ending: Ending)

  function Pow2(n: nat): (r: nat)
    ensures r >= 1
  {
    if n == 0 then 1 else 2 * Pow2(n - 1)
  }

  lemma Pow2Small(n: nat)
    requires n < MaxRetries
    ensures Pow2(n) <= 16
  {
    assert Pow2(1) == 2 && Pow2(2) == 4;
    assert Pow2(3) == 8 && Pow2(4) == 16;
  }

  /** Exponential backoff with jitter for attempt `attempt`. */
  function Backoff(attempt: nat, jitter: real): real {
    BaseDelay * Pow2(attempt) as real + jitter
  }

  /** `min(retry_after, max_delay)`. */
  function Cap(d: real): (r: real)
    ensures r <= MaxDelay
    ensures d <= MaxDelay ==> r == d
    ensures MaxDelay < d ==> r == MaxDelay
  {
    if MaxDelay < d then MaxDelay else d
  }

  /** The wait a 429 answer asks for, before the cap: the header's value (divided by 1000
      when it is above the millisecond threshold), or the backoff when there is no usable
      header. */
  function RateLimitWait(h: Header, attempt: nat, jitter: real): real {
    match h
    case Numeric(v) => if v > MillisecondThreshold then v / 1000.0 else v
    case _ => Backoff(attempt, jitter)
  }

  /** `time.sleep` raises on a negative length; that exception is not one the loop catches. */
  function Pause(d: real): (r: Action)
    ensures r.Wait? <==> 0.0 <= d
    ensures r.Wait? ==> r.delay == d
  {
    if d < 0.0 then Stop(Crashed) else Wait(d)
  }

  /** The outcomes the loop retries: a timeout, a connection error, or a 429 answer, provided
      the wait it asks for is not negative (a non-negative jitter for the backoff, a
      non-negative `Retry-After` when the header is numeric). */
  predicate Retriable(r: Response, jitter: real) {
    match r
    case Status(code, h) => code == 429 && (if h.Numeric? then 0.0 <= h.value else 0.0 <= jitter)
    case Timeout => 0.0 <= jitter
    case ConnectionError => 0.0 <= jitter
    case OtherRequestError => false
  }

  /** The loop body's decision for one attempt. */
  function Classify(r: Response, attempt: nat, jitter: real): (a: Action)
    ensures a.Wait? ==> 0.0 <= a.delay <= MaxDelay
    ensures a.Stop? ==> a.ending != Exhausted
    ensures a == Stop(Delivered) <==> r.Status? && (r.code == 200 || r.code == 204)
    ensures a.Wait? ==> r.Timeout? || r.ConnectionError? || (r.Status? && r.code == 429)
    ensures Retriable(r, jitter) ==> a.Wait?
    ensures (r.Timeout? || r.ConnectionError?) && 0.0 <= jitter ==> a == Wait(Cap(Backoff(attempt, jitter)))
    ensures r.Status? && Retriable(r, jitter) ==> a == Wait(Cap(RateLimitWait(r.retryAfter, attempt, jitter)))
    ensures r.OtherRequestError? ==> a == Stop(RequestFailed)
    ensures r.Status? && r.code != 200 && r.code != 204 && r.code != 429 ==> a == Stop(Rejected(r.code))
  {
    match r
    case Status(code, h) =>
      if code == 200 || code == 204 then Stop(Delivered)
      else if code == 429 then Pause(Cap(RateLimitWait(h, attempt, jitter)))
      else Stop(Rejected(code))
    case Timeout => Pause(Cap(Backoff(attempt, jitter)))
    case ConnectionError => Pause(Cap(Backoff(attempt, jitter)))
    case OtherRequestError => Stop(RequestFailed)
  }

  /** The loop from attempt `attempt` on. */
  function RetryFrom(responses: seq<Response>, jitter: seq<real>, attempt: nat): Delivery
    requires attempt <= MaxRetries <= |responses| && MaxRetries <= |jitter|
    decreases MaxRetries - attempt
  {
    if attempt == MaxRetries then Delivery(0, [], Exhausted)
    else
      match Classify(responses[attempt], attempt, jitter[attempt])
      case Stop(e) => Delivery(1, [], e)
      case Wait(d) =>
        var rest := RetryFrom(responses, jitter, attempt + 1);
        Delivery(1 + rest.posts, [d] + rest.delays, rest.ending)
  }

  /** A delivery that has already made `posts` POSTs and waited `delays`, continued by `rest`. */
  function Continue(posts: nat, delays: seq<real>, rest: Delivery): Delivery {
    Delivery(posts + rest.posts, delays + rest.delays, rest.ending)
  }

  /** The sender's retry loop, `for attempt in range(max_retries): ... else: ...`. */
  method SendWithRetry(responses: seq<Response>, jitter: seq<real>) returns (d: Delivery)
    requires MaxRetries <= |responses| && MaxRetries <= |jitter|
    ensures d == RetryFrom(responses, jitter, 0)
  {
    ghost var goal := RetryFrom(responses, jitter, 0);
    assert Continue(0, [], goal) == goal by { assert [] + goal.delays == goal.delays; }
    var posts := 0;
    var delays: seq<real> := [];
    var ending := Exhausted;
    var stopped := false;
    for attempt := 0 to MaxRetries
      invariant posts == attempt && !stopped
      invariant Continue(posts, delays, RetryFrom(responses, jitter, attempt)) == goal
    {
      var action := Classify(responses[attempt], attempt, jitter[attempt]);
      ContinueStep(responses, jitter, attempt, posts, delays);
      posts := posts + 1;
      if action.Stop? {
        ending := action.ending;
        stopped := true;
        break;
      }
      delays := delays + [action.delay];
    }
    if !stopped {
      assert delays + [] == delays;
      ending := Exhausted;
    }
    d := Delivery(posts, delays, ending);
  }

  /** One attempt of the loop, as the specification sees it: a stop ends the delivery, a
      wait is recorded and the rest follows. */
  lemma ContinueStep(responses: seq<Response>, jitter: seq<real>, attempt: nat, posts: nat, delays: seq<real>)
    requires attempt < MaxRetries <= |responses| && MaxRetries <= |jitter|
    ensures match Classify(responses[attempt], attempt, jitter[attempt])
      case Stop(e) => Continue(posts, delays, RetryFrom(responses, jitter, attempt)) == Delivery(posts + 1, delays, e)
      case Wait(w) => Continue(posts, delays, RetryFrom(responses, jitter, attempt))
                      == Continue(posts + 1, delays + [w], RetryFrom(responses, jitter, attempt + 1))
  {
    match Classify(responses[attempt], attempt, jitter[attempt])
    case Stop(e) =>
      assert delays + [] == delays;
    case Wait(w) =>
      var rest := RetryFrom(responses, jitter, attempt + 1);
      assert delays + [w] + rest.delays == delays + ([w] + rest.delays);
  }

  /** The whole course of a delivery from `attempt` on: between one and the remaining number
      of POSTs; a wait after every POST except a final one that stops the loop; each wait is
      the one its attempt's outcome calls for; the loop runs out exactly when every remaining
      attempt asked for a wait, and otherwise ends the way its last attempt decided. */
  lemma RetryShape(responses: seq<Response>, jitter: seq<real>, attempt: nat)
    requires attempt < MaxRetries <= |responses| && MaxRetries <= |jitter|
    ensures var d := RetryFrom(responses, jitter, attempt);
      && 1 <= d.posts <= MaxRetries - attempt
      && |d.delays| <= d.posts
      && (forall k :: 0 <= k < |d.delays| ==>
            Classify(responses[attempt + k], attempt + k, jitter[attempt + k]) == Wait(d.delays[k]))
      && (d.ending == Exhausted ==> |d.delays| == d.posts == MaxRetries - attempt)
      && (d.ending != Exhausted ==>
            && |d.delays| == d.posts - 1
            && Classify(responses[attempt + d.posts - 1], attempt + d.posts - 1, jitter[attempt + d.posts - 1]) == Stop(d.ending))
  {
    RetryCounts(responses, jitter, attempt);
    RetryWaits(responses, jitter, attempt);
    RetryStop(responses, jitter, attempt);
  }

  /** How many POSTs and waits a delivery from `attempt` on has. */
  lemma {:induction false} RetryCounts(responses: seq<Response>, jitter: seq<real>, attempt: nat)
    requires attempt < MaxRetries <= |responses| && MaxRetries <= |jitter|
    ensures var d := RetryFrom(responses, jitter, attempt);
      && 1 <= d.posts <= MaxRetries - attempt
      && (d.ending == Exhausted ==> |d.delays| == d.posts == MaxRetries - attempt)
      && (d.ending != Exhausted ==> |d.delays| == d.posts - 1)
    decreases MaxRetries - attempt
  {
    if Classify(responses[attempt], attempt, jitter[attempt]).Wait? && attempt + 1 < MaxRetries {
      RetryCounts(responses, jitter, attempt + 1);
    }
  }

  /** Each recorded wait is what its attempt asked for. */
  lemma {:induction false} RetryWaits(responses: seq<Response>, jitter: seq<real>, attempt: nat)
    requires attempt <= MaxRetries <= |responses| && MaxRetries <= |jitter|
    ensures var d := RetryFrom(responses, jitter, attempt);
      && attempt + |d.delays| <= MaxRetries
      && forall k :: 0 <= k < |d.delays| ==>
           Classify(responses[attempt + k], attempt + k, jitter[attempt + k]) == Wait(d.delays[k])
    decreases MaxRetries - attempt
  {
    if attempt < MaxRetries {
      var a := Classify(responses[attempt], attempt, jitter[attempt]);
      if a.Wait? {
        RetryWaits(responses, jitter, attempt + 1);
        var rest := RetryFrom(responses, jitter, attempt + 1);
        var d := RetryFrom(responses, jitter, attempt);
        assert d.delays == [a.delay] + rest.delays;
        forall k | 0 <= k < |d.delays|
          ensures Classify(responses[attempt + k], attempt + k, jitter[attempt + k]) == Wait(d.delays[k])
        {
          if k > 0 {
            assert d.delays[k] == rest.delays[k - 1];
            assert attempt + k == (attempt + 1) + (k - 1);
          }
        }
      }
    }
  }

  /** A delivery that does not run out of attempts ends as its last attempt decided. */
  lemma {:induction false} RetryStop(responses: seq<Response>, jitter: seq<real>, attempt: nat)
    requires attempt <= MaxRetries <= |responses| && MaxRetries <= |jitter|
    ensures var d := RetryFrom(responses, jitter, attempt);
      d.ending != Exhausted ==>
        && 1 <= d.posts && attempt + d.posts <= MaxRetries
        && Classify(responses[attempt + d.posts - 1], attempt + d.posts - 1, jitter[attempt + d.posts - 1]) == Stop(d.ending)
    decreases MaxRetries - attempt
  {
    if attempt < MaxRetries && Classify(responses[attempt], attempt, jitter[attempt]).Wait? {
      RetryStop(responses, jitter, attempt + 1);
    }
  }

  /** Every wait lies between zero and the 60-second cap, and there are at most four waits
      between POSTs plus the one after a fifth retriable outcome. */
  lemma DelaysBounded(responses: seq<Response>, jitter: seq<real>)
    requires MaxRetries <= |responses| && MaxRetries <= |jitter|
    ensures var d := RetryFrom(responses, jitter, 0);
      && 1 <= d.posts <= MaxRetries && |d.delays| <= MaxRetries
      && forall k :: 0 <= k < |d.delays| ==> 0.0 <= d.delays[k] <= MaxDelay
  {
    RetryShape(responses, jitter, 0);
    var d := RetryFrom(responses, jitter, 0);
    forall k | 0 <= k < |d.delays| ensures 0.0 <= d.delays[k] <= MaxDelay {
      assert Classify(responses[k], k, jitter[k]) == Wait(d.delays[k]);
    }
  }

  /** The "maximum retries reached" message is printed exactly when all five attempts asked
      for a wait. */
  lemma ExhaustedIffAllRetriable(responses: seq<Response>, jitter: seq<real>)
    requires MaxRetries <= |responses| && MaxRetries <= |jitter|
    ensures RetryFrom(responses, jitter, 0).ending == Exhausted <==>
      forall k :: 0 <= k < MaxRetries ==> Classify(responses[k], k, jitter[k]).Wait?
  {
    RetryShape(responses, jitter, 0);
    var d := RetryFrom(responses, jitter, 0);
    if d.ending != Exhausted {
      var k := d.posts - 1;
      assert Classify(responses[k], k, jitter[k]) == Stop(d.ending);
    } else {
      forall k | 0 <= k < MaxRetries ensures Classify(responses[k], k, jitter[k]).Wait? {
        assert Classify(responses[k], k, jitter[k]) == Wait(d.delays[k]);
      }
    }
  }

  /** A 200 or 204 answer is the last POST: the delivery succeeds there and nothing is
      sent again. */
  lemma SuccessStops(responses: seq<Response>, jitter: seq<real>)
    requires MaxRetries <= |responses| && MaxRetries <= |jitter|
    ensures var d := RetryFrom(responses, jitter, 0);
      d.ending == Delivered <==>
        var k := d.posts - 1;
        0 <= k && responses[k].Status? && (responses[k].code == 200 || responses[k].code == 204)
  {
    RetryShape(responses, jitter, 0);
  }

  /** A wait that comes from the backoff (a timeout, a connection error, or a 429 without a
      usable `Retry-After`) is `2^k` to `2^k + 1` seconds after attempt `k`: the cap never
      applies to it within five attempts. */
  lemma BackoffWindow(responses: seq<Response>, jitter: seq<real>, k: nat)
    requires MaxRetries <= |responses| && MaxRetries <= |jitter|
    requires k < RetryFrom(responses, jitter, 0).posts
    requires 0.0 <= jitter[k] <= 1.0
    requires responses[k].Timeout? || responses[k].ConnectionError? ||
             (responses[k].Status? && responses[k].code == 429 && !responses[k].retryAfter.Numeric?)
    ensures k < |RetryFrom(responses, jitter, 0).delays|
    ensures var w := RetryFrom(responses, jitter, 0).delays[k];
      Pow2(k) as real <= w <= Pow2(k) as real + 1.0
  {
    RetriableWaits(responses, jitter, k);
    WaitAt(responses, jitter, k);
    Pow2Small(k);
  }

  /** A 429 whose `Retry-After` is a non-negative number waits that many seconds, reading
      values above 1000 as milliseconds, and never more than 60 seconds. */
  lemma HeaderWait(responses: seq<Response>, jitter: seq<real>, k: nat, v: real)
    requires MaxRetries <= |responses| && MaxRetries <= |jitter|
    requires k < RetryFrom(responses, jitter, 0).posts
    requires responses[k] == Status(429, Numeric(v)) && 0.0 <= v
    ensures k < |RetryFrom(responses, jitter, 0).delays|
    ensures var w := RetryFrom(responses, jitter, 0).delays[k];
      && (v <= MaxDelay ==> w == v)
      && (MaxDelay < v <= MillisecondThreshold ==> w == MaxDelay)
      && (MillisecondThreshold < v ==> w == Cap(v / 1000.0))
  {
    RetriableWaits(responses, jitter, k);
    WaitAt(responses, jitter, k);
  }

  /** A POST that is sent and answered by a retriable outcome is never the last one: a wait
      follows it. */
  lemma RetriableWaits(responses: seq<Response>, jitter: seq<real>, k: nat)
    requires MaxRetries <= |responses| && MaxRetries <= |jitter|
    requires k < RetryFrom(responses, jitter, 0).posts
    requires Retriable(responses[k], jitter[k])
    ensures k < |RetryFrom(responses, jitter, 0).delays|
  {
    RetryCounts(responses, jitter, 0);
    RetryStop(responses, jitter, 0);
    assert Classify(responses[k], k, jitter[k]).Wait?;
  }

  /** A 429 answer with a negative numeric `Retry-After` makes the attempt stop the loop. */
  lemma NegativeHeaderStops(r: Response, attempt: nat, jitter: real, v: real)
    requires r == Status(429, Numeric(v)) && v < 0.0
    ensures Classify(r, attempt, jitter) == Stop(Crashed)
  {
    assert RateLimitWait(r.retryAfter, attempt, jitter) == v;
  }

  /** A negative `Retry-After` makes `time.sleep` raise: whichever POST receives it is the
      last one, and the delivery ends through the outer handler. */
  lemma NegativeHeaderCrashes(responses: seq<Response>, jitter: seq<real>, k: nat, v: real)
    requires MaxRetries <= |responses| && MaxRetries <= |jitter|
    requires k < RetryFrom(responses, jitter, 0).posts
    requires responses[k] == Status(429, Numeric(v)) && v < 0.0
    ensures RetryFrom(responses, jitter, 0).posts == k + 1
    ensures RetryFrom(responses, jitter, 0).ending == Crashed
  {
    var d := RetryFrom(responses, jitter, 0);
    RetryCounts(responses, jitter, 0);
    RetryStop(responses, jitter, 0);
    NegativeHeaderStops(responses[k], k, jitter[k], v);
    if k < |d.delays| {
      WaitAt(responses, jitter, k);
      assert false;
    }
  }

  /** The wait with index `k` is the one the outcome of POST `k` asked for. */
  lemma WaitAt(responses: seq<Response>, jitter: seq<real>, k: nat)
    requires MaxRetries <= |responses| && MaxRetries <= |jitter|
    requires k < |RetryFrom(responses, jitter, 0).delays|
    ensures Classify(responses[k], k, jitter[k]) == Wait(RetryFrom(responses, jitter, 0).delays[k])
  {
    RetryWaits(responses, jitter, 0);
    assert Classify(responses[0 + k], 0 + k, jitter[0 + k]) == Wait(RetryFrom(responses, jitter, 0).delays[k]);
  }

  /** Discord answering 429 without `Retry-After` every time: five POSTs, waits of about
      1, 2, 4, 8 and 16 seconds, and the exhaustion message. */
  lemma AlwaysRateLimited(responses: seq<Response>, jitter: seq<real>)
    requires MaxRetries <= |responses| && MaxRetries <= |jitter|
    requires forall k :: 0 <= k < MaxRetries ==> responses[k] == Status(429, Missing)
    requires forall k :: 0 <= k < MaxRetries ==> 0.0 <= jitter[k] <= 1.0
    ensures var d := RetryFrom(responses, jitter, 0);
      && d.posts == MaxRetries && d.ending == Exhausted && |d.delays| == MaxRetries
      && forall k :: 0 <= k < MaxRetries ==> Pow2(k) as real <= d.delays[k] <= Pow2(k) as real + 1.0
  {
    forall k | 0 <= k < MaxRetries ensures Classify(responses[k], k, jitter[k]).Wait? {
      Pow2Small(k);
    }
    ExhaustedIffAllRetriable(responses, jitter);
    RetryShape(responses, jitter, 0);
    forall k | 0 <= k < MaxRetries
      ensures Pow2(k) as real <= RetryFrom(responses, jitter, 0).delays[k] <= Pow2(k) as real + 1.0
    {
      BackoffWindow(responses, jitter, k);
    }
  }
}
