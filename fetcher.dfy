/**
 * `fetchMarkdownContent` / `fetchChangelog` (and their Python twins): the bounded
 * retry loop around one document download. Responses are an abstract sequence,
 * the n-th element answering the n-th request; delays are the integer values
 * before jitter.
 */
module Fetcher {
  import opened Common
  import opened Engine
  import opened Validator

  /** The `Retry-After` header of a 429 response, as the variant's integer parser reads it (one reading per header; see the README). */
  datatype RetryAfter = Absent | Seconds(n: int) | Unparsable

  datatype Response =
    | Reply(status: int, body: string, retryAfter: RetryAfter)
    | TransportError   // connection failure, timeout, or any other request exception

  /** The document a loop downloads. */
  datatype Target = Page | Changelog

  datatype FetchError =
    | HttpStatus(code: int)
    | Transport
    | Invalid(error: ContentError)
    | BadRetryAfter    // Python: `int()` or `time.sleep` raised `ValueError`
    | RateLimitedOut   // the loop ran out of attempts on a 429

  /** A pause between attempts; `seconds` is `None` where TypeScript computes `NaN`. */
  datatype Pause = Backoff(delay: nat) | RateLimitWait(seconds: Option<int>)

  datatype Outcome = Fetched(content: string) | Failed(error: FetchError)

  /** The outcome, the number of requests issued and the pauses taken, in order. */
  datatype Fetch = Fetch(outcome: Outcome, requests: nat, pauses: seq<Pause>)

  /** `2^n`. */
  function Pow2(n: nat): (r: nat)
    ensures r >= 1
  {
    if n == 0 then 1 else 2 * Pow2(n - 1)
  }

  /** The delay before jitter after failed attempt `attempt`: `min(base * 2^attempt, cap)`. */
  function BackoffDelay(v: Variant, attempt: nat): (d: nat)
    ensures d <= MaxRetryDelay(v)
  {
    var d := RetryDelay(v) * Pow2(attempt);
    if d < MaxRetryDelay(v) then d else MaxRetryDelay(v)
  }

  /** The n-th response, or a transport error when the network gives no more. */
  function ResponseAt(rs: seq<Response>, n: nat): Response
  {
    if n < |rs| then rs[n] else TransportError
  }

  /** What the loop does with one response. */
  datatype Step = Done(content: string) | Retry(error: FetchError) | Stop(error: FetchError) | Wait(seconds: Option<int>)

  /**
   * The check a successful response's body must pass, and the content stored:
   * the page validator, or the changelog header and length check.
   */
  function Accept(v: Variant, target: Target, body: string): Outcome
  {
    match target
    case Page =>
      (match ValidateMarkdown(v, body)
       case Accepted => Fetched(body)
       case Rejected(e) => Failed(Invalid(e)))
    case Changelog =>
      (match CheckChangelog(v, body)
       case Accepted => Fetched(ChangelogHeader + body)
       case Rejected(e) => Failed(Invalid(e)))
  }

  /** Whether the status counts as an HTTP error: `!response.ok` in TypeScript, `raise_for_status` in Python. */
  predicate HttpFailure(v: Variant, status: int)
  {
    if v.Python? then 400 <= status < 600 else !(200 <= status < 300)
  }

  /** The check as a value, so that the loop below is the same for both targets. */
  function CheckFor(v: Variant, target: Target): string -> Outcome
  {
    body => Accept(v, target, body)
  }

  /** What the loop does with response `r`, given the `check` for a successful body. */
  function Classify(v: Variant, check: string -> Outcome, r: Response): (s: Step)
    ensures r.TransportError? ==> s == Retry(Transport)
    ensures s.Wait? ==> r.Reply? && r.status == 429
    ensures s.Stop? ==> v.Python?
  {
    match r
    case TransportError => Retry(Transport)
    case Reply(status, body, retryAfter) =>
      if status == 429 then
        if v.Python? then
          match retryAfter
          case Absent => Wait(Some(DefaultRetryAfter))
          case Seconds(n) => if n >= 0 then Wait(Some(n)) else Stop(BadRetryAfter)
          case Unparsable => Stop(BadRetryAfter)
        else
          match retryAfter
          case Absent => Wait(Some(DefaultRetryAfter))
          case Seconds(n) => Wait(Some(n))
          case Unparsable => Wait(None)
      else if HttpFailure(v, status) then Retry(HttpStatus(status))
      else
        match check(body)
        case Fetched(c) => Done(c)
        case Failed(e) => if v.Python? then Stop(e) else Retry(e)
  }

  /** `f` preceded by `n` requests and the pauses `ps`. */
  function Prepend(n: nat, ps: seq<Pause>, f: Fetch): Fetch
  {
    Fetch(f.outcome, n + f.requests, ps + f.pauses)
  }

  /** The step the loop takes at attempt `n`: the classification of the `n`-th response. */
  function Steps(v: Variant, check: string -> Outcome, rs: seq<Response>): nat -> Step
  {
    (n: nat) => Classify(v, check, ResponseAt(rs, n))
  }

  /** The loop from attempt `attempt` on, given the step taken at each attempt. */
  function Loop(v: Variant, step: nat -> Step, attempt: nat): (f: Fetch)
    requires attempt <= MaxRetries
    ensures f.outcome.Fetched? ==> exists k | attempt <= k < MaxRetries :: step(k) == Done(f.outcome.content)
    decreases MaxRetries - attempt
  {
    if attempt == MaxRetries then Fetch(Failed(RateLimitedOut), 0, [])
    else
      match step(attempt)
      case Done(c) => Fetch(Fetched(c), 1, [])
      case Stop(e) => Fetch(Failed(e), 1, [])
      case Wait(s) => Prepend(1, [RateLimitWait(s)], Loop(v, step, attempt + 1))
      case Retry(e) =>
        if attempt < MaxRetries - 1 then
          Prepend(1, [Backoff(BackoffDelay(v, attempt))], Loop(v, step, attempt + 1))
        else Fetch(Failed(e), 1, [])
  }

  /** The whole download of one document. */
  function FetchSpec(v: Variant, target: Target, rs: seq<Response>): (f: Fetch)
    ensures 1 <= f.requests <= MaxRetries
  {
    LoopRequests(v, Steps(v, CheckFor(v, target), rs), 0);
    Loop(v, Steps(v, CheckFor(v, target), rs), 0)
  }

  lemma PrependTwice(n: nat, ps: seq<Pause>, p: Pause, f: Fetch)
    ensures Prepend(n, ps, Prepend(1, [p], f)) == Prepend(n + 1, ps + [p], f)
  {
    assert ps + ([p] + f.pauses) == (ps + [p]) + f.pauses;
  }

  /** One unfolding of the loop at attempt `a`, case by case. */
  lemma LoopAt(v: Variant, step: nat -> Step, a: nat)
    requires a < MaxRetries
    ensures var f := Loop(v, step, a); var s := step(a);
      && (s.Done? ==> f == Fetch(Fetched(s.content), 1, []))
      && (s.Stop? ==> f == Fetch(Failed(s.error), 1, []))
      && (s.Wait? ==> f == Prepend(1, [RateLimitWait(s.seconds)], Loop(v, step, a + 1)))
      && (s.Retry? && a < MaxRetries - 1 ==> f == Prepend(1, [Backoff(BackoffDelay(v, a))], Loop(v, step, a + 1)))
      && (s.Retry? && a == MaxRetries - 1 ==> f == Fetch(Failed(s.error), 1, []))
  {
  }

  /**
   * The loop's state after `n` requests and the pauses `ps`, advanced by the
   * step at attempt `a`: it ends the download, or it adds a request and a pause.
   */
  lemma Advance(v: Variant, step: nat -> Step, a: nat, n: nat, ps: seq<Pause>)
    requires a < MaxRetries
    ensures var f := Prepend(n, ps, Loop(v, step, a)); var s := step(a);
      && (s.Done? ==> f == Fetch(Fetched(s.content), n + 1, ps))
      && (s.Stop? ==> f == Fetch(Failed(s.error), n + 1, ps))
      && (s.Wait? ==> f == Prepend(n + 1, ps + [RateLimitWait(s.seconds)], Loop(v, step, a + 1)))
      && (s.Retry? && a < MaxRetries - 1 ==>
            f == Prepend(n + 1, ps + [Backoff(BackoffDelay(v, a))], Loop(v, step, a + 1)))
      && (s.Retry? && a == MaxRetries - 1 ==> f == Fetch(Failed(s.error), n + 1, ps))
  {
    LoopAt(v, step, a);
    assert ps + [] == ps;
    var s := step(a);
    if s.Wait? {
      PrependTwice(n, ps, RateLimitWait(s.seconds), Loop(v, step, a + 1));
    } else if s.Retry? && a < MaxRetries - 1 {
      PrependTwice(n, ps, Backoff(BackoffDelay(v, a)), Loop(v, step, a + 1));
    }
  }

  /** The attempt loop, following the source's branches; `step` classifies the response to each attempt. */
  method AttemptLoop(v: Variant, step: nat -> Step) returns (f: Fetch)
    ensures f == Loop(v, step, 0)
  {
    var requests := 0;
    var pauses: seq<Pause> := [];
    var attempt := 0;
    while attempt < MaxRetries
      invariant attempt <= MaxRetries && requests == attempt
      invariant Prepend(requests, pauses, Loop(v, step, attempt)) == Loop(v, step, 0)
    {
      LoopAt(v, step, attempt);
      match step(attempt) {
        case Done(c) =>
          return Fetch(Fetched(c), requests + 1, pauses);
        case Stop(e) =>
          return Fetch(Failed(e), requests + 1, pauses);
        case Wait(s) =>
          PrependTwice(requests, pauses, RateLimitWait(s), Loop(v, step, attempt + 1));
          pauses := pauses + [RateLimitWait(s)];
        case Retry(e) =>
          if attempt < MaxRetries - 1 {
            PrependTwice(requests, pauses, Backoff(BackoffDelay(v, attempt)), Loop(v, step, attempt + 1));
            pauses := pauses + [Backoff(BackoffDelay(v, attempt))];
          } else {
            return Fetch(Failed(e), requests + 1, pauses);
          }
      }
      requests := requests + 1;
      attempt := attempt + 1;
    }
    return Fetch(Failed(RateLimitedOut), requests, pauses);
  }

  /** One document's download: the attempt loop over the classified responses. */
  method FetchDocument(v: Variant, check: string -> Outcome, rs: seq<Response>) returns (f: Fetch)
    ensures f == Loop(v, Steps(v, check, rs), 0)
  {
    f := AttemptLoop(v, Steps(v, check, rs));
  }

  // ---------------------------------------------------------------------------
  // Properties of the loop.

  /** From attempt `a` on the loop issues at least one and at most `MaxRetries - a` requests. */
  lemma {:induction false} LoopRequests(v: Variant, step: nat -> Step, a: nat)
    requires a <= MaxRetries
    ensures var f := Loop(v, step, a);
      f.requests <= MaxRetries - a && (a < MaxRetries ==> f.requests >= 1)
    decreases MaxRetries - a
  {
    if a < MaxRetries {
      LoopRequests(v, step, a + 1);
    }
  }

  /** One pause after each request but the last, plus one after a final 429. */
  lemma {:induction false} LoopPauseCount(v: Variant, step: nat -> Step, a: nat)
    requires a <= MaxRetries
    ensures var f := Loop(v, step, a);
      |f.pauses| == f.requests - 1 || (f.outcome == Failed(RateLimitedOut) && |f.pauses| == f.requests)
    decreases MaxRetries - a
  {
    if a < MaxRetries {
      LoopAt(v, step, a);
      LoopPauseCount(v, step, a + 1);
      LoopRequests(v, step, a + 1);
    }
  }

  /** Each pause in `ps`, the `k`-th taken after attempt `a + k`, is a 429 wait or that attempt's backoff, never after the last attempt. */
  predicate BackoffsFrom(v: Variant, a: nat, ps: seq<Pause>)
  {
    forall k | 0 <= k < |ps| ::
      ps[k].RateLimitWait? || (ps[k] == Backoff(BackoffDelay(v, a + k)) && a + k < MaxRetries - 1)
  }

  lemma ShiftBackoffs(v: Variant, a: nat, p: Pause, ps: seq<Pause>)
    requires p.RateLimitWait? || (p == Backoff(BackoffDelay(v, a)) && a < MaxRetries - 1)
    requires BackoffsFrom(v, a + 1, ps)
    ensures BackoffsFrom(v, a, [p] + ps)
  {
    forall k | 0 < k < |[p] + ps|
      ensures ([p] + ps)[k].RateLimitWait? ||
        (([p] + ps)[k] == Backoff(BackoffDelay(v, a + k)) && a + k < MaxRetries - 1)
    {
      assert ([p] + ps)[k] == ps[k - 1];
      assert a + k == (a + 1) + (k - 1);
    }
  }

  /** A backoff pause after attempt `a + k` is `BackoffDelay(v, a + k)` and never follows the last attempt. */
  lemma {:induction false} LoopBackoffs(v: Variant, step: nat -> Step, a: nat)
    requires a <= MaxRetries
    ensures BackoffsFrom(v, a, Loop(v, step, a).pauses)
    decreases MaxRetries - a
  {
    if a < MaxRetries && (step(a).Wait? || (step(a).Retry? && a < MaxRetries - 1)) {
      LoopBackoffs(v, step, a + 1);
      var rest := Loop(v, step, a + 1);
      var p := if step(a).Wait? then RateLimitWait(step(a).seconds) else Backoff(BackoffDelay(v, a));
      assert Loop(v, step, a).pauses == [p] + rest.pauses;
      ShiftBackoffs(v, a, p, rest.pauses);
    }
  }

  /** At most three requests; backoffs of `min(base * 2^attempt, cap)`, never after the last attempt. */
  lemma FetchBounds(v: Variant, target: Target, rs: seq<Response>)
    ensures var f := FetchSpec(v, target, rs);
      && 1 <= f.requests <= MaxRetries
      && (|f.pauses| == f.requests - 1 || (f.outcome == Failed(RateLimitedOut) && |f.pauses| == f.requests))
      && (forall k | 0 <= k < |f.pauses| ::
            f.pauses[k].RateLimitWait? || (f.pauses[k] == Backoff(BackoffDelay(v, k)) && k < MaxRetries - 1))
  {
    var steps := Steps(v, CheckFor(v, target), rs);
    LoopRequests(v, steps, 0);
    LoopPauseCount(v, steps, 0);
    LoopBackoffs(v, steps, 0);
  }

  /** Before jitter the two backoffs are the base delay and twice it: 2000 and 4000 ms, or 2 and 4 s. */
  lemma BackoffSchedule(v: Variant)
    ensures BackoffDelay(v, 0) == RetryDelay(v) && BackoffDelay(v, 1) == 2 * RetryDelay(v)
    ensures v.IsTypeScript() ==> BackoffDelay(v, 0) == 2000 && BackoffDelay(v, 1) == 4000
    ensures v.Python? ==> BackoffDelay(v, 0) == 2 && BackoffDelay(v, 1) == 4
  {
    assert Pow2(1) == 2;
  }

  /** A fetched outcome is the `Done` step of the loop's last request. */
  lemma {:induction false} LoopFetchedAtLast(v: Variant, step: nat -> Step, a: nat)
    requires a <= MaxRetries
    requires Loop(v, step, a).outcome.Fetched?
    ensures var f := Loop(v, step, a);
      f.requests >= 1 && a + f.requests - 1 < MaxRetries && step(a + f.requests - 1) == Done(f.outcome.content)
    decreases MaxRetries - a
  {
    if !step(a).Done? {
      LoopFetchedAtLast(v, step, a + 1);
      var rest := Loop(v, step, a + 1);
      assert Loop(v, step, a).requests == 1 + rest.requests && Loop(v, step, a).outcome == rest.outcome;
    }
  }

  /** A `Done` step comes from a reply that is neither a 429 nor an HTTP error and whose body the check accepted. */
  lemma DoneStep(v: Variant, check: string -> Outcome, r: Response, c: string)
    requires Classify(v, check, r) == Done(c)
    ensures r.Reply? && r.status != 429 && !HttpFailure(v, r.status) && check(r.body) == Fetched(c)
  {
  }

  /** The downloaded content comes from the last response, which passed the status test and the check. */
  lemma FetchedFromLastResponse(v: Variant, check: string -> Outcome, rs: seq<Response>)
    requires Loop(v, Steps(v, check, rs), 0).outcome.Fetched?
    ensures var f := Loop(v, Steps(v, check, rs), 0);
      var r := ResponseAt(rs, f.requests - 1);
      && f.requests >= 1
      && r.Reply? && r.status != 429 && !HttpFailure(v, r.status)
      && check(r.body) == f.outcome
  {
    var f := Loop(v, Steps(v, check, rs), 0);
    LoopFetchedAtLast(v, Steps(v, check, rs), 0);
    DoneStep(v, check, ResponseAt(rs, f.requests - 1), f.outcome.content);
  }

  /** A stored page always passed the validator. */
  lemma FetchedPageIsValid(v: Variant, rs: seq<Response>)
    requires FetchSpec(v, Page, rs).outcome.Fetched?
    ensures ValidateMarkdown(v, FetchSpec(v, Page, rs).outcome.content) == Accepted
  {
    var f := FetchSpec(v, Page, rs);
    FetchedByCheck(v, CheckFor(v, Page), rs);
    var body :| CheckFor(v, Page)(body) == f.outcome;
    AcceptedPage(v, body, f.outcome.content);
  }

  /** A fetched outcome is the check's verdict on some body. */
  lemma FetchedByCheck(v: Variant, check: string -> Outcome, rs: seq<Response>)
    requires Loop(v, Steps(v, check, rs), 0).outcome.Fetched?
    ensures exists body :: check(body) == Loop(v, Steps(v, check, rs), 0).outcome
  {
    FetchedFromLastResponse(v, check, rs);
  }

  lemma AcceptedPage(v: Variant, body: string, c: string)
    requires Accept(v, Page, body) == Fetched(c)
    ensures c == body && ValidateMarkdown(v, body) == Accepted
  {
  }

  /** A step that ends the loop because the check refused the body. */
  predicate Refusal(s: Step)
  {
    (s.Stop? || s.Retry?) && s.error.Invalid?
  }

  /** Without a refusing step from attempt `a` on, the loop never ends with `Invalid`. */
  lemma {:induction false} NoInvalidWithoutRefusal(v: Variant, step: nat -> Step, a: nat)
    requires a <= MaxRetries
    requires forall k | a <= k < MaxRetries :: !Refusal(step(k))
    ensures !Loop(v, step, a).outcome.Failed? || !Loop(v, step, a).outcome.error.Invalid?
    decreases MaxRetries - a
  {
    if a < MaxRetries {
      assert !Refusal(step(a));
      NoInvalidWithoutRefusal(v, step, a + 1);
    }
  }

  /** A check that never refuses never makes the loop end with `Invalid`. */
  lemma NeverInvalid(v: Variant, check: string -> Outcome, rs: seq<Response>)
    requires forall body :: check(body).Fetched?
    ensures !Loop(v, Steps(v, check, rs), 0).outcome.Failed? || !Loop(v, Steps(v, check, rs), 0).outcome.error.Invalid?
  {
    forall k | 0 <= k < MaxRetries
      ensures !Refusal(Steps(v, check, rs)(k))
    {
    }
    NoInvalidWithoutRefusal(v, Steps(v, check, rs), 0);
  }

  /** The changelog check never fails, so a changelog download never ends with `Invalid`. */
  lemma ChangelogNeverInvalid(v: Variant, rs: seq<Response>)
    ensures !FetchSpec(v, Changelog, rs).outcome.Failed? || !FetchSpec(v, Changelog, rs).outcome.error.Invalid?
  {
    forall body ensures CheckFor(v, Changelog)(body).Fetched? {
      ChangelogAlwaysLongEnough(v, body);
    }
    NeverInvalid(v, CheckFor(v, Changelog), rs);
  }

  /** Three 429 responses end the loop with no backoff at all: TypeScript throws, Python returns `None`. */
  lemma ThreeRateLimits(v: Variant, target: Target, rs: seq<Response>)
    requires |rs| >= 3 && forall k | 0 <= k < 3 :: rs[k] == Reply(429, [], Absent)
    ensures FetchSpec(v, target, rs) ==
      Fetch(Failed(RateLimitedOut), 3, [RateLimitWait(Some(60)), RateLimitWait(Some(60)), RateLimitWait(Some(60))])
  {
    assert ResponseAt(rs, 0) == rs[0] && ResponseAt(rs, 1) == rs[1] && ResponseAt(rs, 2) == rs[2];
  }

  /** Python: content that fails validation is not retried; it costs exactly one request. */
  lemma PythonRejectionNotRetried(rs: seq<Response>, body: string)
    requires |rs| >= 1 && rs[0] == Reply(200, body, Absent)
    requires ValidateMarkdown(Python, body).Rejected?
    ensures FetchSpec(Python, Page, rs) == Fetch(Failed(Invalid(ValidateMarkdown(Python, body).error)), 1, [])
  {
    assert ResponseAt(rs, 0) == rs[0];
  }

  /** Python: a negative or non-numeric `Retry-After` ends the loop at once. */
  lemma PythonBadRetryAfterFatal(target: Target, rs: seq<Response>, ra: RetryAfter)
    requires |rs| >= 1 && rs[0].Reply? && rs[0].status == 429
    requires rs[0].retryAfter == Unparsable || (rs[0].retryAfter.Seconds? && rs[0].retryAfter.n < 0)
    ensures FetchSpec(Python, target, rs) == Fetch(Failed(BadRetryAfter), 1, [])
  {
    assert ResponseAt(rs, 0) == rs[0];
  }

  /** TypeScript: a body the check refuses is retried like an HTTP error. */
  lemma RejectionRetried(v: Variant, check: string -> Outcome, bad: string, good: string)
    requires v.IsTypeScript()
    requires check(bad).Failed? && check(good) == Fetched(good)
    ensures Loop(v, Steps(v, check, [Reply(200, bad, Absent), Reply(200, bad, Absent), Reply(200, good, Absent)]), 0)
      == Fetch(Fetched(good), 3, [Backoff(2000), Backoff(4000)])
  {
    BackoffSchedule(v);
    var rs := [Reply(200, bad, Absent), Reply(200, bad, Absent), Reply(200, good, Absent)];
    var steps := Steps(v, check, rs);
    assert ResponseAt(rs, 2) == Reply(200, good, Absent);
    assert steps(2) == Done(good);
    assert Loop(v, steps, 2) == Fetch(Fetched(good), 1, []);
    assert ResponseAt(rs, 1) == Reply(200, bad, Absent);
    assert steps(1).Retry?;
    assert Loop(v, steps, 1) == Fetch(Fetched(good), 2, [Backoff(4000)]);
    assert ResponseAt(rs, 0) == Reply(200, bad, Absent);
    assert steps(0).Retry?;
  }

  /** TypeScript: a page that fails validation is retried; the third, valid body is kept. */
  lemma TypeScriptRejectionRetried(v: Variant, bad: string, good: string)
    requires v.IsTypeScript()
    requires ValidateMarkdown(v, bad).Rejected? && ValidateMarkdown(v, good) == Accepted
    ensures FetchSpec(v, Page, [Reply(200, bad, Absent), Reply(200, bad, Absent), Reply(200, good, Absent)])
      == Fetch(Fetched(good), 3, [Backoff(2000), Backoff(4000)])
  {
    assert CheckFor(v, Page)(bad).Failed?;
    assert CheckFor(v, Page)(good) == Fetched(good);
    RejectionRetried(v, CheckFor(v, Page), bad, good);
  }

  /** Two server errors followed by a good page: both variants recover on the third attempt. */
  lemma TransientErrorsRecovered(v: Variant, good: string)
    requires ValidateMarkdown(v, good) == Accepted
    ensures var f := FetchSpec(v, Page, [Reply(500, [], Absent), Reply(500, [], Absent), Reply(200, good, Absent)]);
      f.outcome == Fetched(good) && f.requests == 3 && f.pauses == [Backoff(BackoffDelay(v, 0)), Backoff(BackoffDelay(v, 1))]
  {
    var rs := [Reply(500, [], Absent), Reply(500, [], Absent), Reply(200, good, Absent)];
    var check := CheckFor(v, Page);
    var steps := Steps(v, check, rs);
    assert check(good) == Fetched(good);
    assert HttpFailure(v, 500) && !HttpFailure(v, 200);
    assert ResponseAt(rs, 2) == Reply(200, good, Absent);
    assert steps(2) == Done(good);
    assert ResponseAt(rs, 1) == Reply(500, [], Absent);
    assert steps(1) == Retry(HttpStatus(500));
    assert ResponseAt(rs, 0) == Reply(500, [], Absent);
    assert steps(0) == Retry(HttpStatus(500));
    RetriedTwiceThenDone(v, steps, good);
  }

  /** Two retries and then a download: three requests, with the first two backoffs between them. */
  lemma RetriedTwiceThenDone(v: Variant, step: nat -> Step, c: string)
    requires step(0).Retry? && step(1).Retry? && step(2) == Done(c)
    ensures Loop(v, step, 0) == Fetch(Fetched(c), 3, [Backoff(BackoffDelay(v, 0)), Backoff(BackoffDelay(v, 1))])
  {
    LoopAt(v, step, 2);
    LoopAt(v, step, 1);
    LoopAt(v, step, 0);
  }

  /** All three attempts failing with a transport error gives up after two backoffs. */
  lemma UnreachableGivesUp(v: Variant, target: Target)
    ensures FetchSpec(v, target, []) ==
      Fetch(Failed(Transport), 3, [Backoff(BackoffDelay(v, 0)), Backoff(BackoffDelay(v, 1))])
  {
  }
}
