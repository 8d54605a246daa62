/** Firing published jobs and runtime policies on schedule: `runner_service/scheduler.py`,
    `jobs/published_job_trigger.py` and `runtime/scheduler_runtime.py`. Times are seconds since the least
    date; whether a schedule matches a minute is given. */
module ScheduledTriggers {
  import opened Basics
  import opened Sorting
  import opened Corpus
  import opened Cascade
  import opened WorkerQueue

  function Minute(t: Time): int {
    t / 60
  }

  // ---- The latest run of a published job ----

  type Runs = map<Id, JobRun>

  function RunsOf(runs: Runs, job: Id): set<Id> {
    set r | r in runs && runs[r].publishedJob == job
  }

  function ScheduledAt(runs: Runs, r: Id): Time {
    if r in runs then runs[r].scheduledAt else 0
  }

  /** By scheduled time, then by identifier, greatest first. */
  function LatestFirst(runs: Runs): (Id, Id) -> bool {
    (a: Id, b: Id) =>
      if ScheduledAt(runs, a) != ScheduledAt(runs, b) then ScheduledAt(runs, a) > ScheduledAt(runs, b) else a >= b
  }

  lemma LatestFirstOrder(runs: Runs)
    ensures TotalOrder(LatestFirst(runs))
  {
  }

  function Latest(runs: Runs, job: Id): Option<Id> {
    LatestFirstOrder(runs);
    var ordered := Ascending(RunsOf(runs, job), LatestFirst(runs));
    if ordered == [] then None else Some(ordered[0])
  }

  lemma LatestMeaning(runs: Runs, job: Id)
    ensures Latest(runs, job).None? <==> RunsOf(runs, job) == {}
    ensures Latest(runs, job).Some? ==>
              Latest(runs, job).value in RunsOf(runs, job)
              && forall r | r in RunsOf(runs, job) :: runs[r].scheduledAt <= runs[Latest(runs, job).value].scheduledAt
  {
    LatestFirstOrder(runs);
    AscendingMembers(RunsOf(runs, job), LatestFirst(runs));
    var ordered := Ascending(RunsOf(runs, job), LatestFirst(runs));
    if ordered != [] {
      assert ordered[0] in ordered;
      forall r | r in RunsOf(runs, job) ensures runs[r].scheduledAt <= runs[ordered[0]].scheduledAt {
        var k :| 0 <= k < |ordered| && ordered[k] == r;
        assert k > 0 ==> LatestFirst(runs)(ordered[0], ordered[k]);
      }
    }
  }

  /** Only the latest run is looked at. */
  function AlreadyTriggered(runs: Runs, job: Id, at: Time): bool {
    LatestMeaning(runs, job);
    match Latest(runs, job)
    case None => false
    case Some(r) => Minute(runs[r].scheduledAt) == Minute(at)
  }

  ghost predicate RanInMinute(runs: Runs, job: Id, minute: int) {
    exists r :: r in RunsOf(runs, job) && Minute(runs[r].scheduledAt) == minute
  }

  ghost predicate RanAfterMinute(runs: Runs, job: Id, minute: int) {
    exists r :: r in RunsOf(runs, job) && Minute(runs[r].scheduledAt) > minute
  }

  /** The check by the latest run misses a run of the same minute exactly when there is a run in a later one. */
  lemma LatestOnlyMisses(runs: Runs, job: Id, at: Time)
    ensures AlreadyTriggered(runs, job, at) <==> RanInMinute(runs, job, Minute(at)) && !RanAfterMinute(runs, job, Minute(at))
  {
    LatestMeaning(runs, job);
    if Latest(runs, job).Some? {
      var last := Latest(runs, job).value;
      forall r | r in RunsOf(runs, job) ensures Minute(runs[r].scheduledAt) <= Minute(runs[last].scheduledAt) {
      }
      if RanInMinute(runs, job, Minute(at)) && !RanAfterMinute(runs, job, Minute(at)) {
        assert Minute(runs[last].scheduledAt) <= Minute(at);
      }
    }
  }

  // ---- Triggering ----

  /** A run and the queued job for it, linked to each other. */
  function NewRun(job: Id, at: Time, byScheduler: bool, queued: Id): JobRun {
    JobRun(job, at, byScheduler, queued, Accepted, None, None, None, None)
  }

  function RunPayload(job: Id, check: Id, run: Id): Payload {
    Payload(Missing, Some("full"), Missing, Precompiled, Ident(job), Ident(check), Missing, Missing, Ident(run))
  }

  function QueuedFor(job: Id, check: Id, run: Id, now: Time): QueuedJob {
    QueuedJob(CheckJob, RunPayload(job, check, run), Accepted, now, None, None, None)
  }

  /** `cronMatches` decides whether a schedule matches a minute. */
  predicate MayFire(published: Jobs, runs: Runs, cronMatches: (string, int) -> bool, job: Id, at: Time) {
    && job in published && published[job].state == JobActive
    && cronMatches(published[job].schedule, Minute(at))
    && !AlreadyTriggered(runs, job, at)
  }

  /** A scheduled or manual fire of a job, or a change of the stored jobs during which identifiers are used up. */
  datatype Fire = Scheduled(job: Id, at: Time) | Manual(job: Id, at: Time) | Change(published: Jobs, used: nat)

  datatype Board = Board(published: Jobs, runs: Runs, nextId: Id)

  function FireStep(b: Board, cronMatches: (string, int) -> bool, f: Fire): Board {
    match f
    case Change(published, used) => b.(published := published, nextId := b.nextId + used)
    case Manual(job, at) =>
      if job in b.published then Record(b, job, at, false) else b
    case Scheduled(job, at) =>
      if MayFire(b.published, b.runs, cronMatches, job, at) then Record(b, job, at, true) else b
  }

  function Record(b: Board, job: Id, at: Time, byScheduler: bool): Board {
    b.(runs := b.runs[b.nextId := NewRun(job, at, byScheduler, b.nextId + 1)], nextId := b.nextId + 2)
  }

  class PublishedJobService {
    const cronMatches: (string, int) -> bool
    var published: Jobs
    var runs: Runs
    var jobs: Queue
    var nextId: Id

    constructor (cronMatches: (string, int) -> bool, published: Jobs)
      ensures Valid() && runs == map[] && jobs == map[] && this.published == published && this.cronMatches == cronMatches
    {
      this.cronMatches, this.published, runs, jobs, nextId := cronMatches, published, map[], map[], 0;
    }

    /** Identifiers are fresh, and every run and its queued job point to each other. */
    ghost predicate Valid()
      reads this
    {
      && (forall id | id in jobs || id in runs :: id < nextId)
      && (forall r | r in runs :: LinkedRun(r))
    }

    ghost predicate LinkedRun(r: Id)
      requires r in runs
      reads this
    {
      var q := runs[r].queuedJob;
      q in jobs && jobs[q].kind == CheckJob && jobs[q].payload.jobRun == Ident(r)
      && jobs[q].payload.publishedJob == Ident(runs[r].publishedJob)
    }

    function Now(): Board
      reads this
    {
      Board(published, runs, nextId)
    }

    method Trigger(job: Id, at: Time, byScheduler: bool, now: Time)
      requires Valid() && job in published
      modifies `runs, `jobs, `nextId
      ensures Valid() && Now() == Record(old(Now()), job, at, byScheduler)
      ensures jobs == old(jobs)[old(nextId) + 1 := QueuedFor(job, published[job].checkId, old(nextId), now)]
    {
      var run, queued := nextId, nextId + 1;
      nextId := nextId + 2;
      runs := runs[run := JobRun(job, at, byScheduler, queued, Accepted, None, None, None, None)];
      var payload := RunPayload(job, published[job].checkId, run);
      jobs := jobs[queued := QueuedJob(CheckJob, payload, Accepted, now, None, None, None)];
    }

    /** Another kind of job joins the queue. */
    method Enqueue(job: QueuedJob)
      requires Valid()
      modifies `jobs, `nextId
      ensures Valid() && jobs == old(jobs)[old(nextId) := job]
    {
      jobs := jobs[nextId := job];
      nextId := nextId + 1;
    }

    method TriggerManually(job: Id, now: Time) returns (ok: bool)
      requires Valid()
      modifies `runs, `jobs, `nextId
      ensures Valid() && ok == (job in published)
      ensures Now() == FireStep(old(Now()), cronMatches, Manual(job, now))
      ensures jobs == if ok then old(jobs)[old(nextId) + 1 := QueuedFor(job, published[job].checkId, old(nextId), now)] else old(jobs)
    {
      ok := job in published;
      if ok {
        Trigger(job, now, false, now);
      }
    }

    method TriggerScheduled(job: Id, at: Time, now: Time) returns (fired: bool)
      requires Valid()
      modifies `runs, `jobs, `nextId
      ensures Valid() && fired == MayFire(published, old(runs), cronMatches, job, at)
      ensures Now() == FireStep(old(Now()), cronMatches, Scheduled(job, at))
      ensures jobs == if fired then old(jobs)[old(nextId) + 1 := QueuedFor(job, published[job].checkId, old(nextId), now)] else old(jobs)
    {
      fired := false;
      if job !in published || published[job].state != JobActive {
        return;
      }
      if !cronMatches(published[job].schedule, Minute(at)) {
        return;
      }
      if AlreadyTriggered(runs, job, at) {
        return;
      }
      Trigger(job, at, true, now);
      fired := true;
    }
  }

  /** What a trigger queues, the worker can use: its payload is complete and its job run is found and fits. */
  lemma TriggeredJobIsUsable(runs: Runs, requests: set<Id>, run: Id, job: Id, check: Id)
    requires run in runs && runs[run].publishedJob == job
    ensures var p := RunPayload(job, check, run);
            && p.track == Precompiled && p.publishedJob == Ident(job) && p.pageCheck == Ident(check) && p.jobRun == Ident(run)
            && PayloadUsable(p, requests) && RunUsable(p, runs) && LinkageFits(p, runs) && RunLoaded(p, requests, runs)
  {
  }

  // ---- At most one scheduled run a minute ----

  function FireAll(b: Board, cronMatches: (string, int) -> bool, fires: seq<Fire>): Board {
    if fires == [] then b else FireStep(FireAll(b, cronMatches, fires[..|fires| - 1]), cronMatches, fires[|fires| - 1])
  }

  /** Two scheduled runs of a job are in different minutes, and no run of any kind precedes a scheduled one
      in its minute. */
  ghost predicate OncePerMinute(runs: Runs) {
    forall r, s | r in runs && s in runs && r < s && runs[r].publishedJob == runs[s].publishedJob && runs[s].byScheduler ::
      Minute(runs[r].scheduledAt) != Minute(runs[s].scheduledAt)
  }

  /** For each job the minutes of its fires never go back. */
  ghost predicate Forward(fires: seq<Fire>) {
    forall i, j | 0 <= i < j < |fires| && !fires[i].Change? && !fires[j].Change? && fires[i].job == fires[j].job ::
      Minute(fires[i].at) <= Minute(fires[j].at)
  }

  ghost predicate FiredBefore(fires: seq<Fire>, run: JobRun) {
    exists i :: 0 <= i < |fires| && !fires[i].Change? && fires[i].job == run.publishedJob && fires[i].at == run.scheduledAt
  }

  ghost predicate Sane(c: Board, fires: seq<Fire>) {
    OncePerMinute(c.runs) && forall r | r in c.runs :: r < c.nextId && FiredBefore(fires, c.runs[r])
  }

  /** Whatever else happens to the jobs in between: fires in forward order give every job at most one scheduled
      run a minute. */
  lemma {:induction false} AtMostOncePerMinute(b: Board, cronMatches: (string, int) -> bool, fires: seq<Fire>)
    requires b.runs == map[] && Forward(fires)
    ensures Sane(FireAll(b, cronMatches, fires), fires)
  {
    if fires != [] {
      var front := fires[..|fires| - 1];
      ForwardPrefix(fires);
      AtMostOncePerMinute(b, cronMatches, front);
      FireKeepsSane(FireAll(b, cronMatches, front), cronMatches, fires);
    }
  }

  lemma ForwardPrefix(fires: seq<Fire>)
    requires fires != [] && Forward(fires)
    ensures Forward(fires[..|fires| - 1])
  {
    var front := fires[..|fires| - 1];
    forall i, j | 0 <= i < j < |front| && !front[i].Change? && !front[j].Change? && front[i].job == front[j].job
      ensures Minute(front[i].at) <= Minute(front[j].at)
    {
      assert front[i] == fires[i] && front[j] == fires[j];
    }
  }

  lemma FireKeepsSane(c: Board, cronMatches: (string, int) -> bool, fires: seq<Fire>)
    requires fires != [] && Forward(fires) && Sane(c, fires[..|fires| - 1])
    ensures Sane(FireStep(c, cronMatches, fires[|fires| - 1]), fires)
  {
    var front, f := fires[..|fires| - 1], fires[|fires| - 1];
    FiredLonger(front, f, c.runs);
    assert front + [f] == fires;
    if !f.Change? && FireStep(c, cronMatches, f) != c {
      NoLaterMinute(fires, c.runs, f.job, f.at);
      LatestOnlyMisses(c.runs, f.job, f.at);
      RecordKeepsOnce(c, f.job, f.at, f.Scheduled?);
      assert fires[|front|] == f;
      assert FiredBefore(fires, NewRun(f.job, f.at, f.Scheduled?, c.nextId + 1));
    }
  }

  lemma FiredLonger(front: seq<Fire>, f: Fire, runs: Runs)
    requires forall r | r in runs :: FiredBefore(front, runs[r])
    ensures forall r | r in runs :: FiredBefore(front + [f], runs[r])
  {
    forall r | r in runs ensures FiredBefore(front + [f], runs[r]) {
      var i :| 0 <= i < |front| && !front[i].Change? && front[i].job == runs[r].publishedJob && front[i].at == runs[r].scheduledAt;
      assert (front + [f])[i] == front[i];
    }
  }

  lemma NoLaterMinute(fires: seq<Fire>, runs: Runs, job: Id, at: Time)
    requires fires != [] && Forward(fires) && !fires[|fires| - 1].Change?
    requires fires[|fires| - 1].job == job && fires[|fires| - 1].at == at
    requires forall r | r in runs :: FiredBefore(fires[..|fires| - 1], runs[r])
    ensures !RanAfterMinute(runs, job, Minute(at))
  {
    forall r | r in RunsOf(runs, job) ensures Minute(runs[r].scheduledAt) <= Minute(at) {
      assert FiredBefore(fires[..|fires| - 1], runs[r]);
      var front := fires[..|fires| - 1];
      var i :| 0 <= i < |front| && !front[i].Change? && front[i].job == job && front[i].at == runs[r].scheduledAt;
      assert fires[i] == front[i];
    }
  }

  lemma RecordKeepsOnce(b: Board, job: Id, at: Time, byScheduler: bool)
    requires OncePerMinute(b.runs) && forall r | r in b.runs :: r < b.nextId
    requires byScheduler ==> !RanInMinute(b.runs, job, Minute(at))
    ensures OncePerMinute(Record(b, job, at, byScheduler).runs)
    ensures forall r | r in Record(b, job, at, byScheduler).runs :: r < b.nextId + 2
  {
    var after := Record(b, job, at, byScheduler).runs;
    forall r, s | r in after && s in after && r < s && after[r].publishedJob == after[s].publishedJob && after[s].byScheduler
      ensures Minute(after[r].scheduledAt) != Minute(after[s].scheduledAt)
    {
      if s == b.nextId {
        assert r in RunsOf(b.runs, job);
      }
    }
  }

  // ---- Fires out of order ----

  /** A scheduled fire gives a minute its second run exactly if the job has a run in that minute and one in
      a later minute. */
  lemma FireKeepsOnceExactly(b: Board, cronMatches: (string, int) -> bool, job: Id, at: Time)
    requires OncePerMinute(b.runs) && forall r | r in b.runs :: r < b.nextId
    requires job in b.published && b.published[job].state == JobActive && cronMatches(b.published[job].schedule, Minute(at))
    ensures OncePerMinute(FireStep(b, cronMatches, Scheduled(job, at)).runs) <==>
            !(RanInMinute(b.runs, job, Minute(at)) && RanAfterMinute(b.runs, job, Minute(at)))
  {
    LatestOnlyMisses(b.runs, job, at);
    if !AlreadyTriggered(b.runs, job, at) {
      if RanInMinute(b.runs, job, Minute(at)) {
        var r :| r in RunsOf(b.runs, job) && Minute(b.runs[r].scheduledAt) == Minute(at);
        var after := Record(b, job, at, true).runs;
        assert r in after && b.nextId in after && r < b.nextId && after[r].publishedJob == after[b.nextId].publishedJob;
      } else {
        RecordKeepsOnce(b, job, at, true);
      }
    }
  }

  function Always(): (string, int) -> bool {
    (schedule: string, minute: int) => true
  }

  /** An active job without runs, whose schedule matches every minute. */
  predicate Quiet(b: Board, job: Id) {
    job in b.published && b.published[job].state == JobActive && b.runs == map[] && b.nextId == 0
  }

  lemma FireRecorded(b: Board, job: Id, at: Time)
    requires job in b.published && b.published[job].state == JobActive && !AlreadyTriggered(b.runs, job, at)
    ensures FireStep(b, Always(), Scheduled(job, at)) == Record(b, job, at, true)
  {
  }

  lemma ThreeFires(b: Board, x: Fire, y: Fire, z: Fire)
    ensures FireAll(b, Always(), [x, y, z]) == FireStep(FireStep(FireStep(b, Always(), x), Always(), y), Always(), z)
  {
    assert [x, y, z][..2] == [x, y] && [x, y][..1] == [x] && [x][..0] == [];
    assert FireAll(b, Always(), [x]) == FireStep(b, Always(), x);
    assert FireAll(b, Always(), [x, y]) == FireStep(FireAll(b, Always(), [x]), Always(), y);
  }

  /** The minute of a run is not recognised once there is a run in a later minute. */
  lemma EarlierMinuteForgotten(runs: Runs, job: Id, r: Id, s: Id, at: Time)
    requires r in RunsOf(runs, job) && s in RunsOf(runs, job)
    requires Minute(runs[r].scheduledAt) == Minute(at) < Minute(runs[s].scheduledAt)
    ensures !AlreadyTriggered(runs, job, at)
  {
    LatestOnlyMisses(runs, job, at);
  }

  lemma TwoRecorded(b: Board, job: Id)
    requires Quiet(b, job)
    ensures var c := Record(b, job, 60, true);
            var d := Record(c, job, 120, true);
            && !AlreadyTriggered(b.runs, job, 60) && !AlreadyTriggered(c.runs, job, 120) && !AlreadyTriggered(d.runs, job, 61)
            && d.published == b.published && d.nextId == 4 && 0 in d.runs
            && d.runs[0].publishedJob == job && d.runs[0].scheduledAt == 60
  {
    var c := Record(b, job, 60, true);
    var d := Record(c, job, 120, true);
    LatestOnlyMisses(b.runs, job, 60);
    LatestOnlyMisses(c.runs, job, 120);
    EarlierMinuteForgotten(d.runs, job, 0, 2, 61);
  }

  /** After fires in the minutes 1 and 2, another fire in minute 1 creates a second run in that minute. */
  lemma OutOfOrderFiresTwice(b: Board, job: Id)
    requires Quiet(b, job)
    ensures !OncePerMinute(FireAll(b, Always(), [Scheduled(job, 60), Scheduled(job, 120), Scheduled(job, 61)]).runs)
  {
    var c := Record(b, job, 60, true);
    var d := Record(c, job, 120, true);
    ThreeFires(b, Scheduled(job, 60), Scheduled(job, 120), Scheduled(job, 61));
    TwoRecorded(b, job);
    FireRecorded(b, job, 60);
    FireRecorded(c, job, 120);
    FireRecorded(d, job, 61);
    var after := Record(d, job, 61, true).runs;
    assert 0 in after && 4 in after && after[0].publishedJob == after[4].publishedJob && after[4].byScheduler;
    assert Minute(after[0].scheduledAt) == 1 == Minute(after[4].scheduledAt);
  }
}
