/** Retrying a precompiled check run: `jobs/run_check_job.py` and `jobs/run_check_retry.py`.
    What each attempt does is given by a function of its number. */
module RetryLoop {
  import opened Basics
  import opened Text

  datatype Outcome =
    | Blocked(reason: string)
    | Raised(error: string)
    | Passed
    | NotPassed(category: Option<string>, detail: Option<string>)

  /** `retryable` says of a failure's category and message whether another attempt is worth while. */
  datatype Policy = Policy(maxAttempts: int, base: int, jitter: int, retryable: (Option<string>, Option<string>) -> bool)

  const PRECOMPILED := Policy(3, 100, 0, IsRetryable)

  datatype Entry = Entry(attemptNo: int, passed: bool, category: Option<string>, retryable: bool, backoff: int)

  datatype Report = Report(
    attemptCount: int, exhausted: bool, flaky: bool, attempts: seq<Entry>, category: Option<string>, message: Option<string>)

  datatype Ending =
    | BlockedAtOnce(reason: string)
    | BlockedOnRetry(reason: string, report: Report)
    | Terminal(error: string, report: Report)
    | Result(outcome: Option<Outcome>, report: Report)

  // ---- Which failures are retried, and after how long ----

  const TRANSIENT := ["timeout", "net::", "connection reset", "target closed", "temporarily unavailable"]

  const STEP_FAILURES := ["context_mismatch", "ambiguous_match", "locator_all_failed", "element_became_hidden", "state_not_reached"]

  predicate IsTransient(message: string) {
    exists p | p in TRANSIENT :: Contains(Lower(message), p)
  }

  predicate IsRetryable(category: Option<string>, message: Option<string>) {
    var name := if category.GetOr("") == "" then "" else Lower(Strip(category.value));
    if name == "navigation_failed" || name == "page_not_ready" then true
    else if name in STEP_FAILURES then false
    else name == "runtime_error" && message.GetOr("") != "" && IsTransient(message.value)
  }

  function CategoryOf(o: Outcome): Option<string> {
    match o
    case Raised(_) => Some("runtime_error")
    case NotPassed(category, _) => category
    case _ => None
  }

  function MessageOf(o: Outcome): Option<string> {
    match o
    case Raised(error) => Some(error)
    case NotPassed(_, detail) => detail
    case _ => None
  }

  /** A failure, raised or reported, of a kind that is worth another attempt. */
  predicate RetryableFailure(o: Outcome, p: Policy) {
    (o.Raised? || o.NotPassed?) && p.retryable(CategoryOf(o), MessageOf(o))
  }

  function Pow2(n: nat): (r: nat)
    ensures r >= 1
  {
    if n == 0 then 1 else 2 * Pow2(n - 1)
  }

  function Backoff(attemptNo: int, p: Policy): int {
    Max(0, p.base * Pow2(Max(attemptNo - 1, 0)) + p.jitter)
  }

  // ---- What a run of attempts amounts to ----

  /** The first attempt from `k` on that is not a retryable failure, at most the last one allowed. */
  function LastAttempt(outcome: int -> Outcome, p: Policy, k: int): int
    requires k <= p.maxAttempts
    decreases p.maxAttempts - k
  {
    if RetryableFailure(outcome(k), p) && k < p.maxAttempts then LastAttempt(outcome, p, k + 1) else k
  }

  lemma {:induction false} LastAttemptMeaning(outcome: int -> Outcome, p: Policy, k: int)
    requires k <= p.maxAttempts
    ensures var n := LastAttempt(outcome, p, k);
            && k <= n <= p.maxAttempts
            && (forall i | k <= i < n :: RetryableFailure(outcome(i), p))
            && (RetryableFailure(outcome(n), p) ==> n == p.maxAttempts)
    decreases p.maxAttempts - k
  {
    if RetryableFailure(outcome(k), p) && k < p.maxAttempts {
      LastAttemptMeaning(outcome, p, k + 1);
    }
  }

  function EntryFor(o: Outcome, p: Policy, attemptNo: int, backoff: int): Entry {
    Entry(attemptNo, o.Passed?, CategoryOf(o), RetryableFailure(o, p), backoff)
  }

  /** The entries of the first `n` attempts, all of them retried. */
  function Retried(outcome: int -> Outcome, p: Policy, n: nat): (entries: seq<Entry>)
    ensures |entries| == n
  {
    if n == 0 then [] else Retried(outcome, p, n - 1) + [EntryFor(outcome(n), p, n, Backoff(n, p))]
  }

  function SleptBefore(p: Policy, n: int): int {
    if n <= 1 then 0 else SleptBefore(p, n - 1) + Backoff(n - 1, p)
  }

  /** How the run ends when attempt `n` is the last one. */
  function EndingAt(outcome: int -> Outcome, p: Policy, n: int): Ending
    requires n >= 1
  {
    var o, before := outcome(n), Retried(outcome, p, n - 1);
    var all := before + [EntryFor(o, p, n, 0)];
    match o
    case Blocked(reason) =>
      if n == 1 then BlockedAtOnce(reason)
      else BlockedOnRetry(reason, Report(n - 1, false, false, before, CategoryOf(outcome(n - 1)), MessageOf(outcome(n - 1))))
    case Raised(error) => Terminal(error, Report(n, RetryableFailure(o, p), false, all, CategoryOf(o), MessageOf(o)))
    case Passed => Result(Some(o), Report(n, false, n > 1, all, None, None))
    case NotPassed(_, _) => Result(Some(o), Report(n, RetryableFailure(o, p), false, all, CategoryOf(o), MessageOf(o)))
  }

  function Run(outcome: int -> Outcome, p: Policy): Ending {
    if p.maxAttempts < 1 then Result(None, Report(p.maxAttempts, false, false, [], None, None))
    else
      LastAttemptMeaning(outcome, p, 1);
      EndingAt(outcome, p, LastAttempt(outcome, p, 1))
  }

  /** `slept` is the total back-off in milliseconds; sleeps that are not positive are left out, as they are
      by the code. */
  method RunPrecompiledWithRetry(outcome: int -> Outcome, p: Policy) returns (ending: Ending, slept: int)
    ensures ending == Run(outcome, p)
    ensures slept == if p.maxAttempts < 1 then 0 else SleptBefore(p, LastAttempt(outcome, p, 1))
  {
    slept := 0;
    var attempts: seq<Entry> := [];
    var last: Option<Outcome> := None;
    var category: Option<string>, message: Option<string>, retryable := None, None, false;
    var attemptNo := 1;
    while attemptNo <= p.maxAttempts
      invariant 1 <= attemptNo && (attemptNo <= p.maxAttempts || (attemptNo == 1 && p.maxAttempts < 1))
      invariant attemptNo <= p.maxAttempts ==> LastAttempt(outcome, p, 1) == LastAttempt(outcome, p, attemptNo)
      invariant attempts == Retried(outcome, p, attemptNo - 1) && slept == SleptBefore(p, attemptNo)
      invariant attemptNo == 1 ==> category == None && message == None && !retryable && last == None
      invariant attemptNo > 1 ==> category == CategoryOf(outcome(attemptNo - 1)) && message == MessageOf(outcome(attemptNo - 1))
      decreases p.maxAttempts - attemptNo
    {
      var o := outcome(attemptNo);
      match o {
        case Blocked(reason) =>
          if attempts == [] {
            return BlockedAtOnce(reason), slept;
          }
          return BlockedOnRetry(reason, Report(|attempts|, false, false, attempts, category, message)), slept;
        case Raised(error) =>
          retryable := p.retryable(Some("runtime_error"), Some(error));
          var shouldRetry := retryable && attemptNo < p.maxAttempts;
          var backoff := if shouldRetry then Backoff(attemptNo, p) else 0;
          attempts := attempts + [Entry(attemptNo, false, Some("runtime_error"), retryable, backoff)];
          category, message := Some("runtime_error"), Some(error);
          if !shouldRetry {
            return Terminal(error, Report(attemptNo, retryable && attemptNo >= p.maxAttempts, false, attempts, category, message)), slept;
          }
          if backoff > 0 { slept := slept + backoff; }
        case Passed =>
          attempts := attempts + [Entry(attemptNo, true, None, false, 0)];
          return Result(Some(o), Report(attemptNo, false, attemptNo > 1, attempts, None, None)), slept;
        case NotPassed(kind, detail) =>
          last := Some(o);
          retryable := p.retryable(kind, detail);
          var shouldRetry := retryable && attemptNo < p.maxAttempts;
          var backoff := if shouldRetry then Backoff(attemptNo, p) else 0;
          attempts := attempts + [Entry(attemptNo, false, kind, retryable, backoff)];
          category, message := kind, detail;
          if !shouldRetry {
            return Result(last, Report(attemptNo, retryable && attemptNo >= p.maxAttempts, false, attempts, category, message)), slept;
          }
          if backoff > 0 { slept := slept + backoff; }
      }
      attemptNo := attemptNo + 1;
    }
    // Reached only when no attempt is allowed at all.
    ending := Result(last, Report(p.maxAttempts, retryable, false, attempts, category, message));
  }

  // ---- Laws ----

  function ReportOf(e: Ending): Option<Report> {
    match e
    case BlockedAtOnce(_) => None
    case BlockedOnRetry(_, r) => Some(r)
    case Terminal(_, r) => Some(r)
    case Result(_, r) => Some(r)
  }

  ghost predicate InOrder(entries: seq<Entry>, p: Policy) {
    && (forall k | 0 <= k < |entries| :: entries[k].attemptNo == k + 1)
    && (forall k | 0 <= k < |entries| - 1 :: WasRetried(entries[k], p))
  }

  ghost predicate WasRetried(e: Entry, p: Policy) {
    !e.passed && e.retryable && e.backoff == Backoff(e.attemptNo, p)
  }

  lemma {:induction false} RetriedInOrder(outcome: int -> Outcome, p: Policy, n: nat)
    requires forall k | 1 <= k <= n :: RetryableFailure(outcome(k), p)
    ensures InOrder(Retried(outcome, p, n), p) && forall e | e in Retried(outcome, p, n) :: WasRetried(e, p)
  {
    if n > 0 { RetriedInOrder(outcome, p, n - 1); }
  }

  /** The recorded attempts are 1, 2, 3, … in order; all but the last are failures marked retryable with their
      back-off. The last has no back-off, unless a block cut the run short, when it was retried as well. */
  lemma AttemptsInOrder(outcome: int -> Outcome, p: Policy)
    requires ReportOf(Run(outcome, p)).Some? && p.maxAttempts >= 1
    ensures var r := ReportOf(Run(outcome, p)).value;
            && |r.attempts| == r.attemptCount >= 1 && InOrder(r.attempts, p)
            && var last := r.attempts[|r.attempts| - 1];
            if Run(outcome, p).BlockedOnRetry? then WasRetried(last, p) else last.backoff == 0
  {
    LastAttemptMeaning(outcome, p, 1);
    RetriedInOrder(outcome, p, LastAttempt(outcome, p, 1) - 1);
  }

  /** Flaky means passed after a failure; exhausted means the last allowed attempt failed retryably; the run
      ends without any outcome only when no attempt is allowed. */
  lemma ReportMeaning(outcome: int -> Outcome, p: Policy)
    ensures var e := Run(outcome, p);
            var n := if p.maxAttempts < 1 then 0 else LastAttempt(outcome, p, 1);
            && (ReportOf(e).Some? && ReportOf(e).value.flaky <==> n > 1 && outcome(n) == Passed)
            && (ReportOf(e).Some? && ReportOf(e).value.exhausted <==> n >= 1 && n == p.maxAttempts && RetryableFailure(outcome(n), p))
            && (e.Result? && e.outcome.None? <==> p.maxAttempts < 1)
            && (e.BlockedAtOnce? <==> n == 1 && outcome(1).Blocked?)
            && (e.BlockedOnRetry? ==> e.report.attemptCount == n - 1 >= 1)
  {
    if p.maxAttempts >= 1 {
      LastAttemptMeaning(outcome, p, 1);
    }
  }

  /** The exact sum of the back-offs before attempt `n`. */
  lemma {:induction false} SleepSum(p: Policy, n: nat)
    requires p.base >= 0 && p.jitter >= 0 && n >= 1
    ensures SleptBefore(p, n) == p.base * (Pow2(n - 1) - 1) + (n - 1) * p.jitter
  {
    if n > 1 {
      SleepSum(p, n - 1);
      SleepStep(p.base, p.jitter, Pow2(n - 2), n);
    }
  }

  lemma SleepStep(base: int, jitter: int, power: int, n: int)
    requires base >= 0 && jitter >= 0 && power >= 1
    ensures base * power + jitter >= 0
    ensures base * (2 * power - 1) + (n - 1) * jitter == base * (power - 1) + (n - 2) * jitter + (base * power + jitter)
  {
    assert base * (2 * power - 1) == base * (power - 1) + base * power;
  }

  /** With the policy in force a run makes at most three attempts and sleeps 0, 100 or 300 milliseconds. */
  lemma PrecompiledPolicy(outcome: int -> Outcome)
    ensures var n := LastAttempt(outcome, PRECOMPILED, 1);
            1 <= n <= 3 && SleptBefore(PRECOMPILED, n) == (if n == 1 then 0 else if n == 2 then 100 else 300)
  {
    LastAttemptMeaning(outcome, PRECOMPILED, 1);
    SleepSum(PRECOMPILED, LastAttempt(outcome, PRECOMPILED, 1));
    assert Pow2(1) == 2 && Pow2(2) == 4;
  }

  /** The message names one of the transient faults, in upper or lower case. */
  ghost predicate Fleeting(message: string) {
    var text := Lower(message);
    || Contains(text, "timeout") || Contains(text, "net::") || Contains(text, "connection reset")
    || Contains(text, "target closed") || Contains(text, "temporarily unavailable")
  }

  /** The navigation failed, the page was not ready, or the runtime failed with a transient fault. */
  ghost predicate PassesByItself(category: Option<string>, message: Option<string>) {
    && category.Some?
    && var name := Lower(Strip(category.value));
       || name == "navigation_failed" || name == "page_not_ready"
       || (name == "runtime_error" && message.Some? && Fleeting(message.value))
  }

  /** Exactly such failures are retried. */
  lemma RetryableMeaning(category: Option<string>, message: Option<string>)
    ensures IsRetryable(category, message) <==> PassesByItself(category, message)
  {
    NoStepFailure();
    NothingFleeting();
    if message.Some? {
      TransientMeaning(message.value);
    }
    assert Lower(Strip("")) == "";
  }

  lemma NoStepFailure()
    ensures "runtime_error" !in STEP_FAILURES
  {
    assert forall f | f in STEP_FAILURES :: f[0] != 'r';
  }

  lemma NothingFleeting()
    ensures !Fleeting("")
  {
    assert Lower("") == "";
  }

  lemma TransientMeaning(message: string)
    ensures IsTransient(message) <==> Fleeting(message)
  {
    var text := Lower(message);
    assert TRANSIENT[0] in TRANSIENT && TRANSIENT[1] in TRANSIENT && TRANSIENT[2] in TRANSIENT;
    assert TRANSIENT[3] in TRANSIENT && TRANSIENT[4] in TRANSIENT;
    if IsTransient(message) {
      var p :| p in TRANSIENT && Contains(text, p);
      var i :| 0 <= i < |TRANSIENT| && TRANSIENT[i] == p;
    }
  }

  /** With the policy in force there is a second attempt exactly after such a failure of the first, and a
      third exactly after such failures of the first two. */
  lemma PrecompiledRetries(outcome: int -> Outcome)
    ensures var n := LastAttempt(outcome, PRECOMPILED, 1);
            && (n >= 2 <==> Worthwhile(outcome(1)))
            && (n == 3 <==> Worthwhile(outcome(1)) && Worthwhile(outcome(2)))
  {
    LastAttemptMeaning(outcome, PRECOMPILED, 1);
    WorthwhileRetried(outcome(1));
    WorthwhileRetried(outcome(2));
  }

  /** A failure of a kind that passes by itself. */
  ghost predicate Worthwhile(o: Outcome) {
    match o
    case Raised(error) => Fleeting(error)
    case NotPassed(category, detail) => PassesByItself(category, detail)
    case _ => false
  }

  lemma WorthwhileRetried(o: Outcome)
    ensures RetryableFailure(o, PRECOMPILED) <==> Worthwhile(o)
  {
    PlainText("runtime_error");
    RetryableMeaning(CategoryOf(o), MessageOf(o));
  }
}
