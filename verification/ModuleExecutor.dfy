/** The step interpreter: `runner_service/module_executor.py` with `data_assertion_modules.py`.

    The browser runtime is an oracle: `answers(i)` is what the runtime does when step `i` calls it. */
module ModuleExecutor {
  import opened Basics
  import opened Text
  import opened ModulePlans

  datatype Answer = Raise | Flag(b: bool) | Word(w: string) | Count(n: int) | Match(matched: bool, category: string)

  datatype Auth = Reused | Refreshed | Blocked

  datatype Category = AuthBlocked | NavigationFailed | PageNotReady | AssertionFailed | RuntimeError | StateNotReached | Locator(name: string)

  datatype Cause = Unsupported | AuthRefused | RuntimeRaised | RejectedAnswer | MissingInput

  datatype Outcome = Passed | Failed(cause: Cause, category: Category)

  datatype StepResult = StepResult(name: string, outcome: Outcome)

  datatype Execution = Execution(passed: bool, auth: Auth, results: seq<StepResult>)

  type Inputs = Option<map<string, Value>>

  // ---- Parameters ----

  predicate IsKeyChar(c: char) {
    'a' <= c <= 'z' || 'A' <= c <= 'Z' || '0' <= c <= '9' || c == '_'
  }

  /** The key of a `{{ key }}` text. */
  function Placeholder(text: string): Option<string> {
    var t := Strip(text);
    if |t| < 4 || t[..2] != "{{" || t[|t| - 2..] != "}}" then None
    else
      var key := Strip(t[2..|t| - 2]);
      if key != "" && forall c | c in key :: IsKeyChar(c) then Some(key) else None
  }

  function ResolveValue(v: Value, inputs: map<string, Value>): Value {
    if !v.Str? then v
    else
      match Placeholder(v.text)
      case None => v
      case Some(key) => if key in inputs then inputs[key] else v
  }

  function Resolve(params: Params, inputs: Inputs): Params {
    match inputs
    case None => params
    case Some(m) => map key | key in params :: ResolveValue(params[key], m)
  }

  function Param(params: Params, key: string): Value {
    if key in params then params[key] else Null
  }

  /** `_optional_text`, for text values; other values have some non-blank rendering. */
  function HasText(v: Value): bool {
    match v
    case Null => false
    case Str(t) => Strip(t) != ""
    case _ => true
  }

  predicate IsDigits(s: string) {
    s != "" && forall c | c in s :: '0' <= c <= '9'
  }

  function Digits(s: string): nat {
    if s == "" || !('0' <= s[|s| - 1] <= '9') then 0 else 10 * Digits(s[..|s| - 1]) + (s[|s| - 1] - '0') as nat
  }

  function DropMinus(s: string): string {
    if s != "" && s[0] == '-' then DropMinus(s[1..]) else s
  }

  /** `coerce_optional_int`: text that looks like digits after any number of minus signs is parsed, and
      parsing fails when there is more than one sign. */
  function CoerceInt(v: Value): Result<Option<int>, ()> {
    match v
    case Num(n) => Ok(Some(n))
    case Str(t) =>
      var s := Strip(t);
      if !IsDigits(DropMinus(s)) then Ok(None)
      else if s[0] != '-' then Ok(Some(Digits(s)))
      else if "--" <= s then Err(())
      else Ok(Some(-(Digits(s[1..]) as int)))
    case _ => Ok(None)
  }

  function Truthy(a: Answer): bool {
    match a
    case Raise => false
    case Flag(b) => b
    case Word(w) => w != ""
    case Count(n) => n != 0
    case Match(_, _) => true
  }

  // ---- One step ----

  function CategoryOf(name: string): Category {
    if name == NAVIGATE then NavigationFailed
    else if name == WAIT_READY then PageNotReady
    else if name == LOCATOR_ASSERT then AssertionFailed
    else if "assert." <= name then AssertionFailed
    else RuntimeError
  }

  function Fail(name: string, cause: Cause): Outcome {
    Failed(cause, CategoryOf(name))
  }

  /** Steps whose only requirement is a truthy answer. */
  function Expect(name: string, a: Answer): Outcome {
    if a.Raise? then Fail(name, RuntimeRaised) else if Truthy(a) then Passed else Fail(name, RejectedAnswer)
  }

  function InjectAuth(a: Answer): Result<Auth, Cause> {
    match a
    case Raise => Err(RuntimeRaised)
    case Flag(b) => Ok(if b then Reused else Blocked)
    case Word(w) =>
      var word := Lower(Strip(w));
      if word == "reused" then Ok(Reused)
      else if word == "refreshed" then Ok(Refreshed)
      else if word == "blocked" then Ok(Blocked)
      else Err(RejectedAnswer)
    case _ => Err(RejectedAnswer)
  }

  function FilterStep(name: string, params: Params, a: Answer): Outcome {
    if !HasText(Param(params, "field")) || Param(params, "value").Null? then Fail(name, MissingInput) else Expect(name, a)
  }

  function CountStep(name: string, params: Params, a: Answer): Outcome {
    if a.Raise? then Fail(name, RuntimeRaised)
    else if !a.Count? || a.n < 0 then Fail(name, RejectedAnswer)
    else
      match (CoerceInt(Param(params, "expected_min")), CoerceInt(Param(params, "expected_max")))
      case (Ok(lo), Ok(hi)) =>
        var lo' := if lo.None? && hi.None? then Some(1) else lo;
        if (lo'.Some? && a.n < lo'.value) || (hi.Some? && a.n > hi.value) then Fail(name, RejectedAnswer) else Passed
      case _ => Fail(name, MissingInput)
  }

  function LocatorOutcome(a: Answer): Outcome {
    match a
    case Raise => Fail(LOCATOR_ASSERT, RuntimeRaised)
    case Match(matched, category) =>
      if matched then Passed
      else Failed(RejectedAnswer, Locator(if Strip(category) == "" then "locator_all_failed" else Strip(category)))
    case _ => Failed(RejectedAnswer, Locator("locator_all_failed"))
  }

  function RunStep(step: Step, inputs: Inputs, a: Answer, auth: Auth): (Auth, Outcome) {
    var name, params := step.name, Resolve(step.params, inputs);
    if name == AUTH then
      match InjectAuth(a)
      case Err(cause) => (auth, Fail(name, cause))
      case Ok(status) => (status, if status == Blocked then Failed(AuthRefused, AuthBlocked) else Passed)
    else if name in {NAVIGATE, WAIT_READY, TABLE_VISIBLE, PAGE_OPEN, PAGE_READY, OPEN_CREATE, SUBMIT_QUERY} then (auth, Expect(name, a))
    else if name == APPLY_FILTER || name == ROW_EXISTS then (auth, FilterStep(name, params, a))
    else if name == DATA_COUNT then (auth, CountStep(name, params, a))
    else if name == ENTER_STATE then
      (auth, if a.Raise? then Failed(RuntimeRaised, StateNotReached) else if Truthy(a) then Passed else Failed(RejectedAnswer, StateNotReached))
    else if name == LOCATOR_ASSERT then (auth, LocatorOutcome(a))
    else (auth, Fail(name, Unsupported))
  }

  // ---- Whole plans ----

  /** What happened before step `n`: the authentication status and whether a step has already failed. */
  function Prefix(steps: seq<Step>, inputs: Inputs, answers: nat -> Answer, n: nat): Execution
    requires n <= |steps|
  {
    if n == 0 then Execution(true, Blocked, [])
    else
      var before := Prefix(steps, inputs, answers, n - 1);
      if !before.passed then before
      else
        var (auth, outcome) := RunStep(steps[n - 1], inputs, answers(n - 1), before.auth);
        Record(before, steps[n - 1].name, auth, outcome)
  }

  function Record(before: Execution, name: string, auth: Auth, outcome: Outcome): Execution {
    Execution(outcome.Passed?, auth, before.results + [StepResult(name, outcome)])
  }

  function Run(steps: seq<Step>, inputs: Inputs, answers: nat -> Answer): Execution {
    Prefix(steps, inputs, answers, |steps|)
  }

  lemma {:induction false} StoppedStays(steps: seq<Step>, inputs: Inputs, answers: nat -> Answer, i: nat, n: nat)
    requires i <= n <= |steps| && !Prefix(steps, inputs, answers, i).passed
    ensures Prefix(steps, inputs, answers, n) == Prefix(steps, inputs, answers, i)
  {
    if i < n {
      StoppedStays(steps, inputs, answers, i, n - 1);
    }
  }

  // ---- Which answers pass ----

  predicate Affirms(a: Answer) {
    a == Flag(true) || (a.Word? && a.w != "") || (a.Count? && a.n != 0) || a.Match?
  }

  /** A field with some text and a value are among the parameters. */
  predicate FieldGiven(params: Params) {
    && "field" in params && params["field"] != Null && (params["field"].Str? ==> Strip(params["field"].text) != "")
    && "value" in params && params["value"] != Null
  }

  /** The count lies within the bounds that the parameters give; without any it is at least 1. */
  predicate WithinBounds(params: Params, n: int) {
    var lo, hi := CoerceInt(Param(params, "expected_min")), CoerceInt(Param(params, "expected_max"));
    && lo.Ok? && hi.Ok?
    && (lo.value.None? && hi.value.None? ==> n >= 1)
    && (lo.value.Some? ==> n >= lo.value.value)
    && (hi.value.Some? ==> n <= hi.value.value)
  }

  const TRUTHY_MODULES: set<string> := {NAVIGATE, WAIT_READY, TABLE_VISIBLE, PAGE_OPEN, PAGE_READY, OPEN_CREATE, SUBMIT_QUERY}

  /** The answer a module needs, given its resolved parameters. */
  predicate Suits(name: string, params: Params, a: Answer) {
    if name == AUTH then a == Flag(true) || (a.Word? && Lower(Strip(a.w)) in {"reused", "refreshed"})
    else if name in TRUTHY_MODULES || name == ENTER_STATE then Affirms(a)
    else if name == APPLY_FILTER || name == ROW_EXISTS then FieldGiven(params) && Affirms(a)
    else if name == DATA_COUNT then a.Count? && a.n >= 0 && WithinBounds(params, a.n)
    else if name == LOCATOR_ASSERT then a.Match? && a.matched
    else false
  }

  /** The category a module that the executor knows fails with. */
  function FailsAs(name: string, a: Answer): Category {
    if name == AUTH then
      if a == Flag(false) || (a.Word? && Lower(Strip(a.w)) == "blocked") then AuthBlocked else RuntimeError
    else if name == NAVIGATE then NavigationFailed
    else if name == WAIT_READY then PageNotReady
    else if name in {TABLE_VISIBLE, PAGE_OPEN, PAGE_READY, DATA_COUNT, ROW_EXISTS} then AssertionFailed
    else if name == ENTER_STATE then StateNotReached
    else if name == LOCATOR_ASSERT then
      if a.Raise? then AssertionFailed
      else Locator(if a.Match? && Strip(a.category) != "" then Strip(a.category) else "locator_all_failed")
    else RuntimeError
  }

  lemma AssertionNames(name: string)
    requires Supported(name)
    ensures "assert." <= name <==> name in {TABLE_VISIBLE, PAGE_OPEN, PAGE_READY, DATA_COUNT, ROW_EXISTS}
  {
    if name in {TABLE_VISIBLE, PAGE_OPEN, PAGE_READY, DATA_COUNT, ROW_EXISTS} {
      assert name[..7] == "assert.";
    } else {
      assert name[0] != 'a' || name[1] != 's';
    }
  }

  lemma CategoryMeaning(name: string)
    requires Supported(name) && name != AUTH && name != ENTER_STATE && name != LOCATOR_ASSERT
    ensures forall a :: CategoryOf(name) == FailsAs(name, a)
  {
    AssertionNames(name);
  }

  lemma AuthMeaning(a: Answer)
    ensures var r := InjectAuth(a);
            && (r.Ok? && r.value != Blocked <==> a == Flag(true) || (a.Word? && Lower(Strip(a.w)) in {"reused", "refreshed"}))
            && (r.Ok? && r.value == Blocked <==> a == Flag(false) || (a.Word? && Lower(Strip(a.w)) == "blocked"))
  {
  }

  /** An outcome says what the answer deserves. */
  predicate Deserved(name: string, params: Params, a: Answer, outcome: Outcome) {
    (outcome.Passed? <==> Suits(name, params, a)) && (outcome.Failed? ==> outcome.category == FailsAs(name, a))
  }

  lemma AuthStep(step: Step, inputs: Inputs, a: Answer, auth: Auth)
    requires step.name == AUTH
    ensures Deserved(step.name, Resolve(step.params, inputs), a, RunStep(step, inputs, a, auth).1)
  {
    AuthMeaning(a);
    AssertionNames(AUTH);
    assert CategoryOf(AUTH) == RuntimeError;
  }

  lemma TruthyStep(step: Step, inputs: Inputs, a: Answer, auth: Auth)
    requires step.name in TRUTHY_MODULES
    ensures Deserved(step.name, Resolve(step.params, inputs), a, RunStep(step, inputs, a, auth).1)
  {
    assert RunStep(step, inputs, a, auth).1 == Expect(step.name, a);
    assert Supported(step.name) && step.name != AUTH && step.name != ENTER_STATE && step.name != LOCATOR_ASSERT;
    CategoryMeaning(step.name);
  }

  lemma FieldStep(step: Step, inputs: Inputs, a: Answer, auth: Auth)
    requires step.name == APPLY_FILTER || step.name == ROW_EXISTS
    ensures Deserved(step.name, Resolve(step.params, inputs), a, RunStep(step, inputs, a, auth).1)
  {
    assert RunStep(step, inputs, a, auth).1 == FilterStep(step.name, Resolve(step.params, inputs), a);
    CategoryMeaning(step.name);
  }

  lemma CountedStep(step: Step, inputs: Inputs, a: Answer, auth: Auth)
    requires step.name == DATA_COUNT
    ensures Deserved(step.name, Resolve(step.params, inputs), a, RunStep(step, inputs, a, auth).1)
  {
    assert RunStep(step, inputs, a, auth).1 == CountStep(step.name, Resolve(step.params, inputs), a);
    CategoryMeaning(step.name);
  }

  lemma StateStep(step: Step, inputs: Inputs, a: Answer, auth: Auth)
    requires step.name == ENTER_STATE
    ensures Deserved(step.name, Resolve(step.params, inputs), a, RunStep(step, inputs, a, auth).1)
  {
  }

  lemma LocatedStep(step: Step, inputs: Inputs, a: Answer, auth: Auth)
    requires step.name == LOCATOR_ASSERT
    ensures Deserved(step.name, Resolve(step.params, inputs), a, RunStep(step, inputs, a, auth).1)
  {
    assert RunStep(step, inputs, a, auth).1 == LocatorOutcome(a);
  }

  lemma StepMeaning(step: Step, inputs: Inputs, a: Answer, auth: Auth)
    requires Supported(step.name)
    ensures Deserved(step.name, Resolve(step.params, inputs), a, RunStep(step, inputs, a, auth).1)
  {
    if step.name == AUTH { AuthStep(step, inputs, a, auth); }
    else if step.name in TRUTHY_MODULES { TruthyStep(step, inputs, a, auth); }
    else if step.name == APPLY_FILTER || step.name == ROW_EXISTS { FieldStep(step, inputs, a, auth); }
    else if step.name == DATA_COUNT { CountedStep(step, inputs, a, auth); }
    else if step.name == ENTER_STATE { StateStep(step, inputs, a, auth); }
    else { LocatedStep(step, inputs, a, auth); }
  }

  /** The answer to step `i` suits it. */
  predicate Answered(steps: seq<Step>, inputs: Inputs, answers: nat -> Answer, i: nat)
    requires i < |steps|
  {
    Suits(steps[i].name, Resolve(steps[i].params, inputs), answers(i))
  }

  /** An execution passes exactly if every step gets the answer it needs, and otherwise ends with the first
      step that does not, which fails with the category of its module. */
  ghost predicate Faithful(steps: seq<Step>, inputs: Inputs, answers: nat -> Answer, n: nat, r: Execution)
    requires n <= |steps|
  {
    && |r.results| <= n
    && (r.passed <==> forall i | 0 <= i < n :: Answered(steps, inputs, answers, i))
    && (!r.passed ==>
          && r.results != []
          && var k := |r.results| - 1;
             && !Answered(steps, inputs, answers, k)
             && (forall i | 0 <= i < k :: Answered(steps, inputs, answers, i))
             && r.results[k].outcome.Failed? && r.results[k].outcome.category == FailsAs(steps[k].name, answers(k)))
  }

  lemma RecordFaithful(steps: seq<Step>, inputs: Inputs, answers: nat -> Answer, n: nat, before: Execution, auth: Auth, outcome: Outcome)
    requires n < |steps| && Faithful(steps, inputs, answers, n, before) && OrderlyUpTo(steps, n, before) && before.passed
    requires Deserved(steps[n].name, Resolve(steps[n].params, inputs), answers(n), outcome)
    ensures Faithful(steps, inputs, answers, n + 1, Record(before, steps[n].name, auth, outcome))
  {
    assert outcome.Passed? <==> Answered(steps, inputs, answers, n);
  }

  lemma StepFaithful(steps: seq<Step>, inputs: Inputs, answers: nat -> Answer, n: nat, before: Execution)
    requires n < |steps| && Faithful(steps, inputs, answers, n, before) && OrderlyUpTo(steps, n, before) && before.passed
    requires Supported(steps[n].name)
    ensures var (auth, outcome) := RunStep(steps[n], inputs, answers(n), before.auth);
            Faithful(steps, inputs, answers, n + 1, Record(before, steps[n].name, auth, outcome))
  {
    var (auth, outcome) := RunStep(steps[n], inputs, answers(n), before.auth);
    StepMeaning(steps[n], inputs, answers(n), before.auth);
    RecordFaithful(steps, inputs, answers, n, before, auth, outcome);
  }

  lemma StoppedFaithful(steps: seq<Step>, inputs: Inputs, answers: nat -> Answer, n: nat, before: Execution)
    requires n < |steps| && Faithful(steps, inputs, answers, n, before) && !before.passed
    ensures Faithful(steps, inputs, answers, n + 1, before)
  {
  }

  lemma PrefixExtends(steps: seq<Step>, inputs: Inputs, answers: nat -> Answer, n: nat)
    requires n < |steps| && Supported(steps[n].name)
    requires Faithful(steps, inputs, answers, n, Prefix(steps, inputs, answers, n))
    ensures Faithful(steps, inputs, answers, n + 1, Prefix(steps, inputs, answers, n + 1))
  {
    var before := Prefix(steps, inputs, answers, n);
    PrefixOrderly(steps, inputs, answers, n);
    if before.passed {
      StepFaithful(steps, inputs, answers, n, before);
    } else {
      StoppedFaithful(steps, inputs, answers, n, before);
    }
  }

  lemma {:induction false} PrefixFaithful(steps: seq<Step>, inputs: Inputs, answers: nat -> Answer, n: nat)
    requires n <= |steps| && forall s | s in steps :: Supported(s.name)
    ensures Faithful(steps, inputs, answers, n, Prefix(steps, inputs, answers, n))
  {
    if n != 0 {
      PrefixFaithful(steps, inputs, answers, n - 1);
      assert steps[n - 1] in steps;
      PrefixExtends(steps, inputs, answers, n - 1);
    }
  }

  method Execute(steps: seq<Step>, inputs: Inputs, answers: nat -> Answer) returns (r: Execution)
    ensures r == Run(steps, inputs, answers)
    ensures (forall s | s in steps :: Supported(s.name)) ==> Faithful(steps, inputs, answers, |steps|, r)
  {
    if forall s | s in steps :: Supported(s.name) {
      PrefixFaithful(steps, inputs, answers, |steps|);
    }
    var auth := Blocked;
    var results: seq<StepResult> := [];
    for i := 0 to |steps|
      invariant Prefix(steps, inputs, answers, i) == Execution(true, auth, results)
    {
      var (status, outcome) := RunStep(steps[i], inputs, answers(i), auth);
      auth := status;
      results := results + [StepResult(steps[i].name, outcome)];
      if outcome.Failed? {
        StoppedStays(steps, inputs, answers, i + 1, |steps|);
        return Execution(false, auth, results);
      }
    }
    r := Execution(true, auth, results);
  }

  /** An execution reports a passed prefix of the plan, in order, and a failed execution exactly one
      failed step at the end of it; steps after a failure are not run. */
  ghost predicate Orderly(steps: seq<Step>, r: Execution) {
    OrderlyUpTo(steps, |steps|, r)
  }

  ghost predicate OrderlyUpTo(steps: seq<Step>, n: nat, r: Execution)
    requires n <= |steps|
  {
    && |r.results| <= n
    && (forall i | 0 <= i < |r.results| :: r.results[i].name == steps[i].name)
    && (forall i | 0 <= i < |r.results| - 1 :: r.results[i].outcome.Passed?)
    && (r.passed ==> |r.results| == n && forall i | 0 <= i < n :: r.results[i].outcome.Passed?)
    && (!r.passed ==> r.results != [] && r.results[|r.results| - 1].outcome.Failed?)
  }

  lemma RecordOrderly(steps: seq<Step>, n: nat, before: Execution, auth: Auth, outcome: Outcome)
    requires n < |steps| && OrderlyUpTo(steps, n, before) && before.passed
    ensures OrderlyUpTo(steps, n + 1, Record(before, steps[n].name, auth, outcome))
  {
  }

  lemma {:induction false} PrefixOrderly(steps: seq<Step>, inputs: Inputs, answers: nat -> Answer, n: nat)
    requires n <= |steps|
    ensures OrderlyUpTo(steps, n, Prefix(steps, inputs, answers, n))
  {
    if n != 0 {
      PrefixOrderly(steps, inputs, answers, n - 1);
      var before := Prefix(steps, inputs, answers, n - 1);
      if before.passed {
        var (auth, outcome) := RunStep(steps[n - 1], inputs, answers(n - 1), before.auth);
        RecordOrderly(steps, n - 1, before, auth, outcome);
      }
    }
  }

  /** Authentication is decided by the last authentication step that ran; with one such step, first, a
      run that gets past it is not blocked. */
  lemma {:induction false} AuthDecidedFirst(steps: seq<Step>, inputs: Inputs, answers: nat -> Answer, n: nat)
    requires 1 <= n <= |steps| && steps[0].name == AUTH && forall i | 1 <= i < |steps| :: steps[i].name != AUTH
    ensures Prefix(steps, inputs, answers, n).auth == Prefix(steps, inputs, answers, 1).auth
    ensures Prefix(steps, inputs, answers, n).passed ==> Prefix(steps, inputs, answers, n).auth != Blocked
  {
    if n > 1 {
      AuthDecidedFirst(steps, inputs, answers, n - 1);
    } else {
      assert Prefix(steps, inputs, answers, 0) == Execution(true, Blocked, []);
    }
  }

  /** Running a built plan against any runtime, with any inputs: either every step passes and the run is
      authenticated, or a passed prefix is followed by one failed step; no step is ever unsupported, and
      a run that stops after its first step was not blocked on authentication. */
  lemma PlannedRun(code: string, ctx: PageContext, state: string, bundle: Value, inputs: Inputs, answers: nat -> Answer)
    ensures var steps := Plan(code, ctx, state, bundle);
            var r := Run(steps, inputs, answers);
            && Orderly(steps, r)
            && (r.passed ==> r.auth != Blocked)
            && (forall i | 0 <= i < |r.results| && r.results[i].outcome.Failed? :: r.results[i].outcome.cause != Unsupported)
            && (|r.results| > 1 ==> r.auth != Blocked)
  {
    var steps := Plan(code, ctx, state, bundle);
    var r := Run(steps, inputs, answers);
    PlanShape(code, ctx, state, bundle);
    assert steps[0] == steps[..3][0];
    PrefixOrderly(steps, inputs, answers, |steps|);
    AuthDecidedFirst(steps, inputs, answers, |steps|);
    forall i | 0 <= i < |r.results| && r.results[i].outcome.Failed? ensures r.results[i].outcome.cause != Unsupported {
      PrefixCauses(steps, inputs, answers, |steps|, i);
    }
    if |r.results| > 1 {
      assert Prefix(steps, inputs, answers, 1).passed by {
        if !Prefix(steps, inputs, answers, 1).passed {
          StoppedStays(steps, inputs, answers, 1, |steps|);
        }
      }
      AuthDecidedFirst(steps, inputs, answers, 1);
    }
  }

  lemma {:induction false} PrefixCauses(steps: seq<Step>, inputs: Inputs, answers: nat -> Answer, n: nat, i: nat)
    requires n <= |steps| && i < |Prefix(steps, inputs, answers, n).results| && i < |steps|
    requires Prefix(steps, inputs, answers, n).results[i].outcome.Failed?
    ensures Supported(steps[i].name) ==> Prefix(steps, inputs, answers, n).results[i].outcome.cause != Unsupported
  {
    PrefixOrderly(steps, inputs, answers, n);
    if n != 0 && i < |Prefix(steps, inputs, answers, n - 1).results| {
      PrefixCauses(steps, inputs, answers, n - 1, i);
    }
  }
}
