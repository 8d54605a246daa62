/** The shared job queue, its worker and the job handlers: `workers/runner.py` and `jobs/`. What a handler's
    service does is given; the handlers' own bookkeeping of jobs and job runs is carried out in place. */
module WorkerQueue {
  import opened Basics
  import opened Sorting
  import opened Corpus
  import opened AssetCompiler
  import opened Cascade
  import RetryLoop

  datatype JobKind = CrawlJob | CompileJob | AuthJob | CheckJob | OtherJob

  datatype JobStatus = Accepted | Running | Completed | Failed | Skipped | RetryableFailed {
    predicate Terminal() {
      !Accepted? && !Running?
    }
  }

  /** A payload entry: absent, not text, text that is no identifier, or an identifier. */
  datatype Raw = Missing | NotText | BadText | Ident(id: Id)

  /** The execution track, stripped and lower-cased. */
  datatype Track = Realtime | RealtimeProbe | Precompiled | OtherTrack

  /** `scope` is absent when the entry is no text or blank. */
  datatype Payload = Payload(
    system: Raw, scope: Option<string>, snapshot: Raw,
    track: Track, publishedJob: Raw, pageCheck: Raw, plan: Raw, request: Raw, jobRun: Raw)

  datatype QueuedJob = QueuedJob(
    kind: JobKind, payload: Payload, status: JobStatus, createdAt: Time,
    startedAt: Option<Time>, finishedAt: Option<Time>, failure: Option<string>)

  datatype JobRun = JobRun(
    publishedJob: Id, scheduledAt: Time, byScheduler: bool, queuedJob: Id, status: JobStatus,
    startedAt: Option<Time>, finishedAt: Option<Time>, failure: Option<string>, executionRun: Option<Id>)

  // ---- What the services do with one job ----

  datatype CrawlEnd = CrawlSaved(snapshot: Id) | CrawlUnsuccessful(message: string)

  datatype AuthEnd = AuthRefreshed | AuthRetryable(message: string) | AuthRefused(message: string)

  datatype CheckEnd = CheckRan(executionRun: Id) | CheckBlocked | CheckGaveUp(error: string)

  /** `crash` is an error the handler does not catch, `raised` one that the service raises. */
  datatype Services = Services(
    crash: Option<string>, raised: Option<string>, crawl: CrawlEnd, auth: AuthEnd, check: CheckEnd)

  function Ended(job: QueuedJob, status: JobStatus, message: Option<string>, now: Time): QueuedJob {
    job.(status := status, startedAt := Some(job.startedAt.GetOr(now)), finishedAt := Some(now), failure := message)
  }

  function RunEnded(run: JobRun, status: JobStatus, message: Option<string>, now: Time): JobRun {
    run.(status := status, startedAt := Some(run.startedAt.GetOr(now)), finishedAt := Some(now), failure := message)
  }

  const NO_TARGETS := Payload(Missing, Some("full"), Missing, OtherTrack, Missing, Missing, Missing, Missing, Missing)

  function CompileFor(snapshot: Id, now: Time): QueuedJob {
    QueuedJob(CompileJob, NO_TARGETS.(snapshot := Ident(snapshot)), Accepted, now, None, None, None)
  }

  // ---- The next job ----

  type Queue = map<Id, QueuedJob>

  function AcceptedJobs(jobs: Queue): set<Id> {
    set id | id in jobs && jobs[id].status == Accepted
  }

  function CreatedAt(jobs: Queue, id: Id): Time {
    if id in jobs then jobs[id].createdAt else 0
  }

  function OldestFirst(jobs: Queue): (Id, Id) -> bool {
    (a: Id, b: Id) =>
      if CreatedAt(jobs, a) != CreatedAt(jobs, b) then CreatedAt(jobs, a) < CreatedAt(jobs, b) else a <= b
  }

  lemma OldestFirstOrder(jobs: Queue)
    ensures TotalOrder(OldestFirst(jobs))
  {
  }

  function NextAccepted(jobs: Queue): Option<Id> {
    OldestFirstOrder(jobs);
    var ordered := Ascending(AcceptedJobs(jobs), OldestFirst(jobs));
    if ordered == [] then None else Some(ordered[0])
  }

  /** The accepted job created first, the one with the smallest identifier among those created together. */
  lemma NextAcceptedMeaning(jobs: Queue)
    ensures NextAccepted(jobs).None? <==> AcceptedJobs(jobs) == {}
    ensures NextAccepted(jobs).Some? ==>
              NextAccepted(jobs).value in AcceptedJobs(jobs)
              && forall id | id in jobs && jobs[id].status == Accepted ::
                   var next := NextAccepted(jobs).value;
                   jobs[next].createdAt < jobs[id].createdAt || (jobs[next].createdAt == jobs[id].createdAt && next <= id)
  {
    OldestFirstOrder(jobs);
    AscendingMembers(AcceptedJobs(jobs), OldestFirst(jobs));
    var ordered := Ascending(AcceptedJobs(jobs), OldestFirst(jobs));
    if ordered != [] {
      assert ordered[0] in ordered;
      forall id | id in AcceptedJobs(jobs) ensures OldestFirst(jobs)(ordered[0], id) {
        var k :| 0 <= k < |ordered| && ordered[k] == id;
        assert k > 0 ==> OldestFirst(jobs)(ordered[0], ordered[k]);
      }
      forall id | id in jobs && jobs[id].status == Accepted
        ensures jobs[ordered[0]].createdAt < jobs[id].createdAt || (jobs[ordered[0]].createdAt == jobs[id].createdAt && ordered[0] <= id)
      {
        assert id in AcceptedJobs(jobs);
      }
    }
  }

  // ---- The draining measure ----

  function AcceptedCrawls(jobs: Queue): set<Id> {
    set id | id in AcceptedJobs(jobs) && jobs[id].kind == CrawlJob
  }

  function Backlog(jobs: Queue): nat {
    |AcceptedJobs(jobs)| + |AcceptedCrawls(jobs)|
  }

  /** Accepted crawls count twice and other accepted jobs once. */
  lemma BacklogCounts(jobs: Queue)
    ensures Backlog(jobs) == 2 * |AcceptedCrawls(jobs)| + |AcceptedJobs(jobs) - AcceptedCrawls(jobs)|
  {
    assert AcceptedJobs(jobs) == AcceptedCrawls(jobs) + (AcceptedJobs(jobs) - AcceptedCrawls(jobs));
  }

  lemma EndingShrinks(jobs: Queue, id: Id, job: QueuedJob)
    requires id in AcceptedJobs(jobs) && job.status.Terminal()
    ensures AcceptedJobs(jobs[id := job]) == AcceptedJobs(jobs) - {id}
    ensures AcceptedCrawls(jobs[id := job]) == AcceptedCrawls(jobs) - {id}
    ensures Backlog(jobs[id := job]) == Backlog(jobs) - if jobs[id].kind == CrawlJob then 2 else 1
  {
    var after := jobs[id := job];
    assert AcceptedJobs(after) == AcceptedJobs(jobs) - {id};
    assert AcceptedCrawls(after) == AcceptedCrawls(jobs) - {id};
  }

  lemma CompileGrows(jobs: Queue, id: Id, job: QueuedJob)
    requires id !in jobs && job.status == Accepted && job.kind == CompileJob
    ensures AcceptedJobs(jobs[id := job]) == AcceptedJobs(jobs) + {id}
    ensures AcceptedCrawls(jobs[id := job]) == AcceptedCrawls(jobs)
    ensures Backlog(jobs[id := job]) == Backlog(jobs) + 1
  {
    var after := jobs[id := job];
    forall other ensures other in AcceptedJobs(after) <==> other in AcceptedJobs(jobs) + {id} {
    }
    forall other ensures other in AcceptedCrawls(after) <==> other in AcceptedCrawls(jobs) {
    }
    assert AcceptedJobs(after) == AcceptedJobs(jobs) + {id};
    assert AcceptedCrawls(after) == AcceptedCrawls(jobs);
  }

  // ---- Run-check payloads ----

  predicate Given(raw: Raw) {
    !raw.Missing?
  }

  /** The payload entries are usable up to the job run. A plan or request that is no text is ignored. */
  predicate PayloadUsable(p: Payload, requests: set<Id>) {
    && (Given(p.publishedJob) ==> p.publishedJob.Ident?)
    && !(p.pageCheck.Missing? && p.track == Realtime)
    && !p.plan.BadText?
    && (p.track == RealtimeProbe ==> p.plan.Ident? && (Given(p.pageCheck) ==> p.pageCheck.Ident?))
    && (p.track != RealtimeProbe ==> p.pageCheck.Ident?)
    && !p.request.BadText? && (p.request.Ident? ==> p.request.id in requests)
  }

  predicate RunUsable(p: Payload, runs: map<Id, JobRun>) {
    Given(p.jobRun) ==> p.jobRun.Ident? && p.jobRun.id in runs
  }

  /** The job run's published job is the one the payload names, if it names one. */
  predicate LinkageFits(p: Payload, runs: map<Id, JobRun>)
    requires RunUsable(p, runs)
  {
    p.jobRun.Ident? && p.publishedJob.Ident? ==> runs[p.jobRun.id].publishedJob == p.publishedJob.id
  }

  /** The check, its asset or the pause of its published job says the check is out of service. */
  predicate OutOfService(tables: Tables, published: Jobs, p: Payload) {
    p.pageCheck.Ident? && p.track != RealtimeProbe &&
    var check := p.pageCheck.id;
    || check !in tables.checks || tables.checks[check].lifecycle != InService
    || tables.checks[check].assetId !in tables.assets || tables.assets[tables.checks[check].assetId].lifecycle != InService
    || (p.publishedJob.Ident? && p.publishedJob.id in published &&
        published[p.publishedJob.id].state == JobPaused && SystemPaused(published[p.publishedJob.id]))
  }

  /** The status with which a run-check job ends. */
  function CheckVerdict(
    p: Payload, requests: set<Id>, runs: map<Id, JobRun>, tables: Tables, published: Jobs, s: Services): JobStatus
  {
    if p.pageCheck.Missing? && p.track == Realtime && (Given(p.publishedJob) ==> p.publishedJob.Ident?) then Skipped
    else if !PayloadUsable(p, requests) || !RunUsable(p, runs) || !LinkageFits(p, runs) then Failed
    else if OutOfService(tables, published, p) then Skipped
    else if s.raised.Some? then Failed
    else match s.check case CheckRan(_) => Completed case CheckBlocked => Skipped case CheckGaveUp(_) => Failed
  }

  /** Whether the job run is found, so that it ends with the job. */
  predicate RunLoaded(p: Payload, requests: set<Id>, runs: map<Id, JobRun>) {
    PayloadUsable(p, requests) && p.jobRun.Ident? && p.jobRun.id in runs
  }

  /** A job that ended now: terminal, with start and finish noted and a message unless it completed. */
  ghost predicate ClosedWell(before: QueuedJob, after: QueuedJob, now: Time) {
    && after.startedAt == Some(before.startedAt.GetOr(now)) && after.finishedAt == Some(now)
    && after.kind == before.kind && after.payload == before.payload && after.createdAt == before.createdAt
    && after.status.Terminal() && (after.failure.None? <==> after.status == Completed)
  }

  class WorkerRunner {
    const handlers: set<JobKind>
    const tables: Tables
    const published: Jobs
    const requests: set<Id>
    var jobs: Queue
    var runs: map<Id, JobRun>
    /** Every identifier in the queue is below this one. */
    var nextId: Id

    constructor (
      handlers: set<JobKind>, tables: Tables, published: Jobs, requests: set<Id>,
      jobs: Queue, runs: map<Id, JobRun>, nextId: Id)
      requires forall id | id in jobs :: id < nextId
      ensures Valid() && this.jobs == jobs && this.runs == runs
      ensures this.handlers == handlers && this.tables == tables && this.published == published && this.requests == requests
    {
      this.handlers, this.tables, this.published, this.requests := handlers, tables, published, requests;
      this.jobs, this.runs, this.nextId := jobs, runs, nextId;
    }

    ghost predicate Valid()
      reads this
    {
      forall id | id in jobs :: id < nextId
    }

    method End(id: Id, status: JobStatus, message: Option<string>, now: Time)
      requires id in jobs
      modifies `jobs
      ensures jobs == old(jobs)[id := Ended(old(jobs[id]), status, message, now)]
    {
      var job := jobs[id];
      jobs := jobs[id := job.(status := status, startedAt := Some(job.startedAt.GetOr(now)), finishedAt := Some(now), failure := message)];
    }

    method EndWithRun(id: Id, run: Raw, status: JobStatus, message: Option<string>, now: Time)
      requires id in jobs && (run.Ident? ==> run.id in runs)
      modifies `jobs, `runs
      ensures jobs == old(jobs)[id := Ended(old(jobs[id]), status, message, now)]
      ensures runs == if run.Ident? then old(runs)[run.id := RunEnded(old(runs[run.id]), status, message, now)] else old(runs)
    {
      End(id, status, message, now);
      if run.Ident? {
        var row := runs[run.id];
        runs := runs[run.id := row.(status := status, startedAt := Some(row.startedAt.GetOr(now)), finishedAt := Some(now), failure := message)];
      }
    }

    method Start(id: Id, now: Time)
      requires id in jobs
      modifies `jobs
      ensures jobs == old(jobs)[id := old(jobs[id]).(status := Running, startedAt := Some(old(jobs[id]).startedAt.GetOr(now)))]
    {
      jobs := jobs[id := jobs[id].(status := Running, startedAt := Some(jobs[id].startedAt.GetOr(now)))];
    }

    /** Ends terminal; on success, and only then, one accepted compile job for the new snapshot joins the queue. */
    method RunCrawl(id: Id, s: Services, now: Time)
      requires Valid() && id in jobs && jobs[id].kind == CrawlJob
      modifies `jobs, `nextId
      ensures Valid() && id in jobs && ClosedWell(old(jobs)[id], jobs[id], now)
      ensures old(jobs)[id].payload.system.Ident? && old(jobs)[id].payload.scope.Some? && s.raised.Some? ==> jobs[id].failure == s.raised
      ensures jobs[id].status == Completed || jobs[id].status == Failed
      ensures jobs[id].status == Completed <==>
                && old(jobs[id].payload.system.Ident?) && old(jobs[id].payload.scope.Some?)
                && s.raised.None? && s.crawl.CrawlSaved?
      ensures jobs == if jobs[id].status == Completed && s.crawl.CrawlSaved?
                      then old(jobs)[id := jobs[id]][old(nextId) := CompileFor(s.crawl.snapshot, now)]
                      else old(jobs)[id := jobs[id]]
    {
      var p := jobs[id].payload;
      if p.system.Missing? || p.system.NotText? {
        End(id, Failed, Some("missing system_id in crawl job payload"), now);
        return;
      }
      if p.scope.None? {
        End(id, Failed, Some("missing crawl_scope in crawl job payload"), now);
        return;
      }
      Start(id, now);
      if p.system.BadText? || s.raised.Some? {
        End(id, Failed, Some(s.raised.GetOr("badly formed hexadecimal UUID string")), now);
        return;
      }
      match s.crawl {
        case CrawlUnsuccessful(message) => End(id, Failed, Some(message), now);
        case CrawlSaved(snapshot) =>
          End(id, Completed, None, now);
          var payload := NO_TARGETS.(snapshot := Ident(snapshot));
          jobs := jobs[nextId := QueuedJob(CompileJob, payload, Accepted, now, None, None, None)];
          nextId := nextId + 1;
      }
    }

    method RunCompile(id: Id, s: Services, now: Time)
      requires id in jobs
      modifies `jobs
      ensures id in jobs && jobs == old(jobs)[id := jobs[id]] && ClosedWell(old(jobs)[id], jobs[id], now)
      ensures old(jobs)[id].payload.snapshot.Ident? && s.raised.Some? ==> jobs[id].failure == s.raised
      ensures jobs[id].status == if old(jobs[id].payload.snapshot.Ident?) && s.raised.None? then Completed else Failed
    {
      var p := jobs[id].payload;
      if p.snapshot.Missing? || p.snapshot.NotText? {
        End(id, Failed, Some("missing snapshot_id in asset compile job payload"), now);
        return;
      }
      Start(id, now);
      if p.snapshot.BadText? || s.raised.Some? {
        End(id, Failed, Some(s.raised.GetOr("badly formed hexadecimal UUID string")), now);
        return;
      }
      End(id, Completed, None, now);
    }

    method RunAuth(id: Id, s: Services, now: Time)
      requires id in jobs
      modifies `jobs
      ensures id in jobs && jobs == old(jobs)[id := jobs[id]] && ClosedWell(old(jobs)[id], jobs[id], now)
      ensures old(jobs)[id].payload.system.Ident? && s.raised.Some? ==> jobs[id].failure == s.raised
      ensures jobs[id].status == Completed || jobs[id].status == RetryableFailed || jobs[id].status == Failed
      ensures jobs[id].status == Completed <==> old(jobs[id].payload.system.Ident?) && s.raised.None? && s.auth.AuthRefreshed?
      ensures jobs[id].status == RetryableFailed <==> old(jobs[id].payload.system.Ident?) && s.raised.None? && s.auth.AuthRetryable?
    {
      var p := jobs[id].payload;
      if p.system.Missing? || p.system.NotText? {
        End(id, Failed, Some("missing system_id in auth refresh job payload"), now);
        return;
      }
      Start(id, now);
      if p.system.BadText? || s.raised.Some? {
        End(id, Failed, Some(s.raised.GetOr("badly formed hexadecimal UUID string")), now);
        return;
      }
      match s.auth {
        case AuthRefreshed => End(id, Completed, None, now);
        case AuthRetryable(message) => End(id, RetryableFailed, Some(message), now);
        case AuthRefused(message) => End(id, Failed, Some(message), now);
      }
    }

    /** What is wrong with the payload before the job run is looked up: the status to end with and why. */
    method CheckPayload(p: Payload) returns (problem: Option<(JobStatus, string)>)
      ensures problem.None? <==> PayloadUsable(p, requests)
      ensures problem.Some? ==>
                problem.value.0 == if p.pageCheck.Missing? && p.track == Realtime && (Given(p.publishedJob) ==> p.publishedJob.Ident?)
                                   then Skipped else Failed
    {
      if Given(p.publishedJob) && !p.publishedJob.Ident? {
        return Some((Failed, "invalid published_job_id in run_check job payload"));
      }
      if p.pageCheck.Missing? && p.track == Realtime {
        return Some((Skipped, "realtime execution track is not supported by run_check worker"));
      }
      if p.plan.BadText? {
        return Some((Failed, "invalid execution_plan_id in run_check job payload"));
      }
      if p.track == RealtimeProbe && !p.plan.Ident? {
        return Some((Failed, "missing execution_plan_id in run_check job payload"));
      }
      if p.track == RealtimeProbe {
        if Given(p.pageCheck) && !p.pageCheck.Ident? {
          return Some((Failed, "invalid page_check_id in run_check job payload"));
        }
      } else {
        if p.pageCheck.Missing? || p.pageCheck.NotText? {
          return Some((Failed, "missing page_check_id in run_check job payload"));
        }
        if p.pageCheck.BadText? {
          return Some((Failed, "invalid page_check_id in run_check job payload"));
        }
      }
      if p.request.BadText? {
        return Some((Failed, "invalid execution_request_id in run_check job payload"));
      }
      if p.request.Ident? && p.request.id !in requests {
        return Some((Failed, "execution request not found"));
      }
      problem := None;
    }

    /** The job ends as its verdict says. A job run that was found ends with it, with the same status and
        message, whatever the way out; otherwise no job run changes. */
    method RunCheck(id: Id, s: Services, now: Time)
      requires id in jobs
      modifies `jobs, `runs
      ensures id in jobs && jobs == old(jobs)[id := jobs[id]] && ClosedWell(old(jobs)[id], jobs[id], now)
      ensures jobs[id].status == CheckVerdict(old(jobs[id].payload), requests, old(runs), tables, published, s)
      ensures var p := old(jobs[id].payload);
              if RunLoaded(p, requests, old(runs)) then
                && p.jobRun.id in runs && runs == old(runs)[p.jobRun.id := runs[p.jobRun.id]]
                && var run := runs[p.jobRun.id];
                && run == RunEnded(old(runs[p.jobRun.id]), jobs[id].status, jobs[id].failure, now).(executionRun := run.executionRun)
                && run.executionRun == if run.status == Completed && s.check.CheckRan? then Some(s.check.executionRun)
                                       else old(runs[p.jobRun.id]).executionRun
              else runs == old(runs)
    {
      var p := jobs[id].payload;
      var problem := CheckPayload(p);
      if problem.Some? {
        End(id, problem.value.0, Some(problem.value.1), now);
        return;
      }
      if Given(p.jobRun) {
        if !p.jobRun.Ident? {
          End(id, Failed, Some("invalid job_run_id in run_check job payload"), now);
          return;
        }
        if p.jobRun.id !in runs {
          End(id, Failed, Some("job run not found"), now);
          return;
        }
        if p.publishedJob.Ident? && runs[p.jobRun.id].publishedJob != p.publishedJob.id {
          EndWithRun(id, p.jobRun, Failed, Some("published_job_id does not match job_run linkage"), now);
          return;
        }
      }
      if OutOfService(tables, published, p) {
        EndWithRun(id, p.jobRun, Skipped, Some("asset_retired_missing"), now);
        return;
      }
      StartWithRun(id, p.jobRun, now);
      if s.raised.Some? {
        EndWithRun(id, p.jobRun, Failed, s.raised, now);
        return;
      }
      match s.check {
        case CheckBlocked => EndWithRun(id, p.jobRun, Skipped, Some("asset_retired_missing"), now);
        case CheckGaveUp(error) => EndWithRun(id, p.jobRun, Failed, Some(error), now);
        case CheckRan(executionRun) =>
          EndWithRun(id, p.jobRun, Completed, None, now);
          if p.jobRun.Ident? {
            runs := runs[p.jobRun.id := runs[p.jobRun.id].(executionRun := Some(executionRun))];
          }
      }
    }

    method StartWithRun(id: Id, run: Raw, now: Time)
      requires id in jobs && (run.Ident? ==> run.id in runs)
      modifies `jobs, `runs
      ensures jobs == old(jobs)[id := old(jobs[id]).(status := Running, startedAt := Some(old(jobs[id]).startedAt.GetOr(now)))]
      ensures runs == if run.Ident?
                      then old(runs)[run.id := old(runs[run.id]).(status := Running, startedAt := Some(old(runs[run.id]).startedAt.GetOr(now)))]
                      else old(runs)
    {
      Start(id, now);
      if run.Ident? {
        runs := runs[run.id := runs[run.id].(status := Running, startedAt := Some(runs[run.id].startedAt.GetOr(now)))];
      }
    }

    method Handle(id: Id, s: Services, now: Time)
      requires Valid() && id in jobs && jobs[id].status == Accepted
      modifies `jobs, `runs, `nextId
      ensures Valid() && id in jobs && ClosedWell(old(jobs)[id], jobs[id], now)
      ensures forall other | other in old(jobs) && other != id :: other in jobs && jobs[other] == old(jobs)[other]
      ensures Backlog(jobs) < Backlog(old(jobs))
    {
      ghost var before := jobs;
      var kind := jobs[id].kind;
      match kind {
        case CrawlJob =>
          RunCrawl(id, s, now);
          EndingShrinks(before, id, jobs[id]);
          if jobs[id].status == Completed {
            CompileGrows(before[id := jobs[id]], old(nextId), CompileFor(s.crawl.snapshot, now));
          }
        case CompileJob =>
          RunCompile(id, s, now);
          EndingShrinks(before, id, jobs[id]);
        case AuthJob =>
          RunAuth(id, s, now);
          EndingShrinks(before, id, jobs[id]);
        case _ =>
          HandleCheck(id, s, now);
      }
    }

    method HandleCheck(id: Id, s: Services, now: Time)
      requires Valid() && id in jobs && jobs[id].status == Accepted
      modifies `jobs, `runs
      ensures Valid() && id in jobs && ClosedWell(old(jobs)[id], jobs[id], now) && jobs == old(jobs)[id := jobs[id]]
      ensures Backlog(jobs) < Backlog(old(jobs))
    {
      ghost var before := jobs;
      RunCheck(id, s, now);
      EndingShrinks(before, id, jobs[id]);
    }

    /** Claim the next accepted job, if there is one, and see it through to a terminal status. */
    method RunOnce(s: Services, now: Time) returns (claimed: Option<Id>)
      requires Valid()
      modifies `jobs, `runs, `nextId
      ensures Valid() && claimed == NextAccepted(old(jobs))
      ensures claimed.None? ==> jobs == old(jobs) && runs == old(runs)
      ensures claimed.Some? ==>
                claimed.value in old(jobs) && claimed.value in jobs && ClosedWell(old(jobs)[claimed.value], jobs[claimed.value], now)
      ensures claimed.Some? ==> Backlog(jobs) < Backlog(old(jobs))
      ensures forall id | id in old(jobs) && claimed != Some(id) :: id in jobs && jobs[id] == old(jobs)[id]
    {
      NextAcceptedMeaning(jobs);
      claimed := NextAccepted(jobs);
      if claimed.None? {
        return;
      }
      var id := claimed.value;
      ghost var before := jobs;
      if jobs[id].kind !in handlers || jobs[id].kind == OtherJob {
        End(id, Skipped, Some("no handler registered for job type"), now);
        EndingShrinks(before, id, jobs[id]);
      } else if s.crash.Some? {
        End(id, Failed, Some("handler crashed: " + s.crash.value), now);
        EndingShrinks(before, id, jobs[id]);
      } else {
        Handle(id, s, now);
      }
    }

    /** Polling without outside submissions: the worker goes idle after finitely many jobs, having claimed
        every job that was accepted, none twice, and left each of them terminal. */
    method RunUntilIdle(services: nat -> Services, clock: nat -> Time) returns (claims: seq<Id>)
      requires Valid()
      modifies `jobs, `runs, `nextId
      ensures Valid() && AcceptedJobs(jobs) == {}
      ensures Distinct(claims) && |claims| <= Backlog(old(jobs))
      ensures forall id | id in claims :: id in jobs && jobs[id].status.Terminal()
      ensures forall id | id in AcceptedJobs(old(jobs)) :: id in claims
      ensures forall id | id in old(jobs) && id !in claims :: id in jobs && jobs[id] == old(jobs)[id]
    {
      claims := [];
      var handled := true;
      while handled
        invariant Valid()
        invariant Distinct(claims) && |claims| + Backlog(jobs) <= Backlog(old(jobs))
        invariant forall id | id in claims :: id in jobs && jobs[id].status.Terminal()
        invariant forall id | id in old(jobs) && id !in claims :: id in jobs && jobs[id] == old(jobs)[id]
        invariant !handled ==> AcceptedJobs(jobs) == {}
        decreases Backlog(jobs), handled
      {
        NextAcceptedMeaning(jobs);
        var claimed := RunOnce(services(|claims|), clock(|claims|));
        handled := claimed.Some?;
        if handled {
          claims := claims + [claimed.value];
        }
      }
      forall id | id in AcceptedJobs(old(jobs)) ensures id in claims {
        assert id in old(jobs) && old(jobs)[id].status == Accepted;
        assert id !in AcceptedJobs(jobs);
      }
    }
  }

  // ---- Precompiled runs ----

  /** How a retry loop's ending reaches the handler. */
  function CheckEndOf(e: RetryLoop.Ending, executionRun: Id): CheckEnd {
    match e
    case BlockedAtOnce(_) => CheckBlocked
    case BlockedOnRetry(_, _) => CheckBlocked
    case Terminal(error, _) => CheckGaveUp(error)
    case Result(_, _) => CheckRan(executionRun)
  }

  /** A usable precompiled job whose check is in service ends as its last attempt did: skipped when that was
      blocked, failed when it raised, and completed when it returned a result, even a failed one. */
  lemma PrecompiledVerdict(
    p: Payload, requests: set<Id>, runs: map<Id, JobRun>, tables: Tables, published: Jobs, s: Services,
    outcome: int -> RetryLoop.Outcome, policy: RetryLoop.Policy, executionRun: Id)
    requires PayloadUsable(p, requests) && RunUsable(p, runs) && LinkageFits(p, runs) && !OutOfService(tables, published, p)
    requires p.track == Precompiled && s.raised.None? && policy.maxAttempts >= 1
    requires s.check == CheckEndOf(RetryLoop.Run(outcome, policy), executionRun)
    ensures var last := outcome(RetryLoop.LastAttempt(outcome, policy, 1));
            CheckVerdict(p, requests, runs, tables, published, s) ==
            if last.Blocked? then Skipped else if last.Raised? then Failed else Completed
  {
    RetryLoop.LastAttemptMeaning(outcome, policy, 1);
  }
}
