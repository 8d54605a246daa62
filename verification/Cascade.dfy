/** Pausing and resuming published jobs, disabling and enabling intent aliases after a compile:
    `control_plane/service.py`, `control_plane/repository.py`, `runner_service/scheduler.py` and the
    queries in `asset_compiler/service.py`. */
module Cascade {
  import opened Basics
  import opened Sorting
  import opened Text
  import opened Corpus
  import opened Reconciliation
  import opened AssetCompiler
  import opened LifecycleLaws

  datatype JobState = JobActive | JobPaused | JobArchived

  datatype PublishedJob = PublishedJob(
    checkId: Id, schedule: string, state: JobState, pauseReason: Option<string>,
    pausedBySnapshot: Option<Id>, pausedByAsset: Option<Id>, pausedByCheck: Option<Id>)

  datatype IntentAlias = IntentAlias(
    assetKey: string, checkAlias: string, isActive: bool, disabledReason: Option<string>,
    disabledAt: Option<Time>, disabledBy: Option<Id>)

  const JOB_REASON := "asset_retired_missing"

  const ALIAS_REASON := "retired_missing"

  // ---- System markers ----

  predicate SystemPaused(job: PublishedJob) {
    && Contains(Lower(Normalized(job.pauseReason)), "retired")
    && (job.pausedBySnapshot.Some? || job.pausedByAsset.Some? || job.pausedByCheck.Some?)
  }

  predicate SystemDisabled(a: IntentAlias) {
    && a.disabledBy.Some?
    && var reason := Lower(Normalized(a.disabledReason));
       reason != "" && ("retired_" <= reason || "asset_retired" <= reason || Contains(reason, "retired"))
  }

  // ---- Jobs ----

  function Pause(job: PublishedJob, sid: Id): PublishedJob {
    job.(state := JobPaused, pauseReason := Some(JOB_REASON), pausedBySnapshot := Some(sid), pausedByCheck := Some(job.checkId))
  }

  function Resume(job: PublishedJob): PublishedJob {
    job.(state := JobActive, pauseReason := None, pausedBySnapshot := None, pausedByAsset := None, pausedByCheck := None)
  }

  type Jobs = map<Id, PublishedJob>

  function Pausable(jobs: Jobs, checks: seq<Id>): set<Id> {
    set id | id in jobs && jobs[id].checkId in checks && jobs[id].state == JobActive
  }

  function Resumable(jobs: Jobs, checks: seq<Id>): set<Id> {
    set id | id in jobs && jobs[id].checkId in checks && jobs[id].state == JobPaused && SystemPaused(jobs[id])
  }

  function JobsToPause(jobs: Jobs, checks: seq<Id>): seq<Id> {
    IdOrder();
    Ascending(Pausable(jobs, checks), IdLe)
  }

  function JobsToResume(jobs: Jobs, checks: seq<Id>): seq<Id> {
    IdOrder();
    Ascending(Resumable(jobs, checks), IdLe)
  }

  lemma JobQueries(jobs: Jobs, checks: seq<Id>)
    ensures forall id :: id in JobsToPause(jobs, checks) <==> id in jobs && jobs[id].checkId in checks && jobs[id].state == JobActive
    ensures forall id :: id in JobsToResume(jobs, checks) <==>
              id in jobs && jobs[id].checkId in checks && jobs[id].state == JobPaused && SystemPaused(jobs[id])
  {
    IdOrder();
    AscendingMembers(Pausable(jobs, checks), IdLe);
    AscendingMembers(Resumable(jobs, checks), IdLe);
  }

  /** Only jobs that are active at that moment are paused, only paused ones are resumed. */
  function PauseJobs(jobs: Jobs, ids: seq<Id>, sid: Id): Jobs {
    map id | id in jobs :: if id in ids && jobs[id].state == JobActive then Pause(jobs[id], sid) else jobs[id]
  }

  function ResumeJobs(jobs: Jobs, ids: seq<Id>): Jobs {
    map id | id in jobs :: if id in ids && jobs[id].state == JobPaused then Resume(jobs[id]) else jobs[id]
  }

  /** What a successful cascade after the compile `r` does to the jobs. The queries ran before it. */
  function CascadeJobs(jobs: Jobs, r: Compiled, sid: Id): Jobs {
    ResumeJobs(PauseJobs(jobs, JobsToPause(jobs, r.retiredChecks), sid), JobsToResume(jobs, r.resumedChecks))
  }

  // ---- Aliases ----

  type Aliases = map<Id, IntentAlias>

  function Disable(a: IntentAlias, sid: Id, now: Time): IntentAlias {
    a.(isActive := false, disabledReason := Some(ALIAS_REASON), disabledAt := Some(now), disabledBy := Some(sid))
  }

  function Enable(a: IntentAlias): IntentAlias {
    a.(isActive := true, disabledReason := None, disabledAt := None, disabledBy := None)
  }

  /** Asset key and check code of a check. */
  function Target(t: Tables, id: Id): (string, string) {
    if id in t.checks && t.checks[id].assetId in t.assets then (t.assets[t.checks[id].assetId].key, t.checks[id].code) else ("", "")
  }

  function Targets(t: Tables, ids: seq<Id>): set<(string, string)> {
    set id | id in ids && Target(t, id).0 != "" && Target(t, id).1 != "" :: Target(t, id)
  }

  function RetiredKeys(t: Tables, ids: seq<Id>): set<string> {
    set id | id in ids && id in t.assets && t.assets[id].key != "" :: t.assets[id].key
  }

  predicate DisableAlias(a: IntentAlias, t: Tables, r: Compiled) {
    a.isActive && (a.assetKey in RetiredKeys(t, r.retiredAssets) || (a.assetKey, a.checkAlias) in Targets(t, r.retiredChecks))
  }

  predicate EnableAlias(a: IntentAlias, t: Tables, r: Compiled) {
    !a.isActive && (a.assetKey, a.checkAlias) in Targets(t, r.resumedChecks) && SystemDisabled(a)
  }

  function Disablable(aliases: Aliases, t: Tables, r: Compiled): set<Id> {
    set id | id in aliases && DisableAlias(aliases[id], t, r)
  }

  function Enablable(aliases: Aliases, t: Tables, r: Compiled): set<Id> {
    set id | id in aliases && EnableAlias(aliases[id], t, r)
  }

  function AliasesToDisable(aliases: Aliases, t: Tables, r: Compiled): seq<Id> {
    IdOrder();
    Ascending(Disablable(aliases, t, r), IdLe)
  }

  function AliasesToEnable(aliases: Aliases, t: Tables, r: Compiled): seq<Id> {
    IdOrder();
    Ascending(Enablable(aliases, t, r), IdLe)
  }

  function ActiveAmong(aliases: Aliases, ids: seq<Id>): set<Id> {
    set id | id in aliases && id in ids && aliases[id].isActive
  }

  function InactiveAmong(aliases: Aliases, ids: seq<Id>): set<Id> {
    set id | id in aliases && id in ids && !aliases[id].isActive
  }

  function DisableAliases(aliases: Aliases, ids: seq<Id>, sid: Id, now: Time): Aliases {
    map id | id in aliases :: if id in ids && aliases[id].isActive then Disable(aliases[id], sid, now) else aliases[id]
  }

  function EnableAliases(aliases: Aliases, ids: seq<Id>): Aliases {
    map id | id in aliases :: if id in ids && !aliases[id].isActive then Enable(aliases[id]) else aliases[id]
  }

  function CascadeAliases(aliases: Aliases, r: Compiled, sid: Id, now: Time): Aliases {
    EnableAliases(DisableAliases(aliases, AliasesToDisable(aliases, r.tables, r), sid, now), AliasesToEnable(aliases, r.tables, r))
  }

  // ---- Laws ----

  /** Paused by the system because its check was retired. */
  predicate Marked(job: PublishedJob) {
    job.state == JobPaused && SystemPaused(job)
  }

  predicate Unmarked(job: PublishedJob) {
    job.pauseReason.None? && job.pausedBySnapshot.None? && job.pausedByAsset.None? && job.pausedByCheck.None?
  }

  /** Jobs refer to checks; a job paused for retirement has a check out of service; an active job carries
      no pause marker. */
  ghost predicate JobsInv(jobs: Jobs, t: Tables) {
    && (forall id | id in jobs :: jobs[id].checkId in t.checks)
    && (forall id | id in jobs && Marked(jobs[id]) :: !CheckOn(t, jobs[id].checkId))
    && (forall id | id in jobs && jobs[id].state == JobActive :: Unmarked(jobs[id]))
  }

  /** Active jobs are jobs of checks in service. */
  ghost predicate ActiveOn(jobs: Jobs, t: Tables) {
    forall id | id in jobs && jobs[id].state == JobActive :: CheckOn(t, jobs[id].checkId)
  }

  lemma PauseMarks(job: PublishedJob, sid: Id)
    ensures Marked(Pause(job, sid))
  {
    PlainText(JOB_REASON);
    assert JOB_REASON[6..13] == "retired";
    ContainsAt(JOB_REASON, "retired", 6);
  }

  lemma {:induction false} ContainsAt(haystack: string, needle: string, at: nat)
    requires at + |needle| <= |haystack| && haystack[at..at + |needle|] == needle
    ensures Contains(haystack, needle)
  {
    if at == 0 {
      assert needle <= haystack;
    } else {
      assert haystack[1..][at - 1..at - 1 + |needle|] == haystack[at..at + |needle|];
      ContainsAt(haystack[1..], needle, at - 1);
    }
  }

  lemma DisableMarks(a: IntentAlias, sid: Id, now: Time)
    ensures SystemDisabled(Disable(a, sid, now))
  {
    PlainText(ALIAS_REASON);
  }

  /** A compile followed by a successful cascade keeps the job law. The jobs paused and the jobs resumed
      are different jobs, every other job, in particular one paused by hand or archived, is untouched,
      a marked job whose check is back in service runs again, and no job stays active on a check that the
      compile retired. */
  lemma CascadeKeepsJobs(jobs: Jobs, t: Tables, r: Compiled, sid: Id)
    requires JobsInv(jobs, t) && Moves(t, r)
    ensures var after := CascadeJobs(jobs, r, sid);
            && JobsInv(after, r.tables)
            && (forall id | id in JobsToPause(jobs, r.retiredChecks) :: id !in JobsToResume(jobs, r.resumedChecks))
            && (forall id | id in jobs :: JobMoves(jobs[id], r, sid, after[id]))
            && (forall id | id in jobs && Marked(jobs[id]) && CheckOn(r.tables, jobs[id].checkId) :: after[id].state == JobActive)
            && (ActiveOn(jobs, t) ==> ActiveOn(after, r.tables))
  {
    JobQueries(jobs, r.retiredChecks);
    JobQueries(jobs, r.resumedChecks);
    var after := CascadeJobs(jobs, r, sid);
    forall id | id in jobs ensures JobMoves(jobs[id], r, sid, after[id]) {
      PauseMarks(jobs[id], sid);
    }
    forall id | id in after && Marked(after[id]) ensures !CheckOn(r.tables, after[id].checkId) {
      assert JobMoves(jobs[id], r, sid, after[id]);
    }
    forall id | id in after && after[id].state == JobActive
      ensures Unmarked(after[id]) && (ActiveOn(jobs, t) ==> CheckOn(r.tables, after[id].checkId))
    {
      assert JobMoves(jobs[id], r, sid, after[id]);
    }
  }

  /** What the cascade does to one job. */
  ghost predicate JobMoves(job: PublishedJob, r: Compiled, sid: Id, after: PublishedJob) {
    if job.state == JobActive && job.checkId in r.retiredChecks then after == Pause(job, sid) && Marked(after)
    else if Marked(job) && job.checkId in r.resumedChecks then after == Resume(job)
    else after == job
  }

  /** The text mentions retirement, in upper or lower case. */
  ghost predicate MentionsRetirement(text: Option<string>) {
    text.Some? && exists at :: FoundAt(Lower(Strip(text.value)), "retired", at)
  }

  lemma MentionMeaning(text: Option<string>)
    ensures MentionsRetirement(text) <==> Contains(Lower(Normalized(text)), "retired")
  {
    ContainsMeaning(Lower(Normalized(text)), "retired");
    assert Lower("") == "" && !("retired" <= "");
  }

  /** A cascade resumes a job exactly if it is paused, its check was brought back, its pause reason mentions
      retirement and it names the snapshot, asset or check it was paused for. A pause by hand stays. */
  lemma ResumedExactly(jobs: Jobs, r: Compiled, sid: Id, id: Id)
    requires id in jobs && jobs[id].state == JobPaused
    ensures var job := jobs[id];
            CascadeJobs(jobs, r, sid)[id] ==
            if job.checkId in r.resumedChecks && MentionsRetirement(job.pauseReason)
               && (job.pausedBySnapshot.Some? || job.pausedByAsset.Some? || job.pausedByCheck.Some?)
            then PublishedJob(job.checkId, job.schedule, JobActive, None, None, None, None)
            else job
  {
    JobQueries(jobs, r.retiredChecks);
    JobQueries(jobs, r.resumedChecks);
    MentionMeaning(jobs[id].pauseReason);
  }

  /** And it pauses exactly the active jobs of the retired checks, naming snapshot and check. */
  lemma PausedExactly(jobs: Jobs, r: Compiled, sid: Id, id: Id)
    requires id in jobs && jobs[id].state != JobPaused
    ensures var job := jobs[id];
            var after := CascadeJobs(jobs, r, sid)[id];
            if job.state == JobActive && job.checkId in r.retiredChecks then
              && after.state == JobPaused && after.pauseReason == Some("asset_retired_missing")
              && after.pausedBySnapshot == Some(sid) && after.pausedByCheck == Some(job.checkId) && after.pausedByAsset == job.pausedByAsset
              && after.checkId == job.checkId && after.schedule == job.schedule
            else after == job
  {
    JobQueries(jobs, r.retiredChecks);
    JobQueries(jobs, r.resumedChecks);
  }

  /** When the compile is committed but its cascade fails, the law on paused jobs holds exactly if the
      cascade had no job to resume, and the law on active jobs exactly if it had none to pause. */
  lemma CompileWithoutCascade(jobs: Jobs, t: Tables, r: Compiled)
    requires JobsInv(jobs, t) && Moves(t, r)
    ensures JobsInv(jobs, r.tables) <==> JobsToResume(jobs, r.resumedChecks) == []
    ensures ActiveOn(jobs, t) ==> (ActiveOn(jobs, r.tables) <==> JobsToPause(jobs, r.retiredChecks) == [])
  {
    WithoutResume(jobs, t, r);
    WithoutPause(jobs, t, r);
  }

  lemma WithoutResume(jobs: Jobs, t: Tables, r: Compiled)
    requires JobsInv(jobs, t) && Moves(t, r)
    ensures JobsInv(jobs, r.tables) <==> JobsToResume(jobs, r.resumedChecks) == []
  {
    JobQueries(jobs, r.resumedChecks);
    var resume := JobsToResume(jobs, r.resumedChecks);
    if resume != [] {
      assert resume[0] in resume;
      assert Marked(jobs[resume[0]]) && CheckOn(r.tables, jobs[resume[0]].checkId);
    } else {
      forall id | id in jobs && Marked(jobs[id]) ensures !CheckOn(r.tables, jobs[id].checkId) {
        assert id !in resume;
      }
    }
  }

  lemma WithoutPause(jobs: Jobs, t: Tables, r: Compiled)
    requires Moves(t, r)
    ensures ActiveOn(jobs, t) ==> (ActiveOn(jobs, r.tables) <==> JobsToPause(jobs, r.retiredChecks) == [])
  {
    JobQueries(jobs, r.retiredChecks);
    var pause := JobsToPause(jobs, r.retiredChecks);
    if pause != [] {
      assert pause[0] in pause;
      assert jobs[pause[0]].state == JobActive && !CheckOn(r.tables, jobs[pause[0]].checkId);
    } else {
      forall id | id in jobs && jobs[id].state == JobActive && CheckOn(t, jobs[id].checkId)
        ensures CheckOn(r.tables, jobs[id].checkId)
      {
        assert id !in pause;
      }
    }
  }

  /** A job missed that way is not picked up by the next compile and cascade either: those resume only the
      jobs of checks they bring back, and this job's check is in service already. */
  lemma MissedJobStays(jobs: Jobs, t: Tables, r: Compiled, sid: Id, id: Id)
    requires Moves(t, r) && id in jobs && Marked(jobs[id]) && CheckOn(t, jobs[id].checkId)
    ensures CascadeJobs(jobs, r, sid)[id] == jobs[id]
  {
    JobQueries(jobs, r.retiredChecks);
    JobQueries(jobs, r.resumedChecks);
  }

  /** Nor is an active job missed on a check that stays out of service, unless the next compile brings the
      check back and retires it again in one pass. */
  lemma MissedActiveJobStays(jobs: Jobs, t: Tables, r: Compiled, sid: Id, id: Id)
    requires Moves(t, r) && id in jobs && jobs[id].state == JobActive
    ensures CascadeJobs(jobs, r, sid)[id] == if jobs[id].checkId in r.retiredChecks then Pause(jobs[id], sid) else jobs[id]
  {
    JobQueries(jobs, r.retiredChecks);
    JobQueries(jobs, r.resumedChecks);
  }

  /** Retiring a set of active jobs and bringing them back restores every job record. */
  lemma PauseResumeRestores(jobs: Jobs, ids: seq<Id>, sid: Id)
    requires forall id | id in ids && id in jobs :: jobs[id].state == JobActive && Unmarked(jobs[id])
    ensures ResumeJobs(PauseJobs(jobs, ids, sid), ids) == jobs
  {
  }

  /** A check that one cascade retires and a later one resumes gets its jobs back as they were. */
  lemma RetireThenReturn(jobs: Jobs, t: Tables, retired: Compiled, returned: Compiled, sid: Id, later: Id)
    requires JobsInv(jobs, t) && retired.resumedChecks == [] && returned.retiredChecks == []
    requires forall id | id in jobs && Marked(jobs[id]) :: jobs[id].checkId !in returned.resumedChecks
    requires forall c | c in retired.retiredChecks :: c in returned.resumedChecks
    ensures CascadeJobs(CascadeJobs(jobs, retired, sid), returned, later) == jobs
  {
    var paused := CascadeJobs(jobs, retired, sid);
    JobQueries(jobs, retired.retiredChecks);
    JobQueries(jobs, retired.resumedChecks);
    JobQueries(paused, returned.retiredChecks);
    JobQueries(paused, returned.resumedChecks);
    forall id | id in jobs ensures CascadeJobs(paused, returned, later)[id] == jobs[id] {
      PauseMarks(jobs[id], sid);
    }
  }

  /** An alias out of use was put there by a cascade, so it qualifies for being enabled again; disabling
      and enabling restores it; and no alias is disabled and enabled by the same cascade. */
  ghost predicate AliasesInv(aliases: Aliases) {
    && (forall id | id in aliases && !aliases[id].isActive :: SystemDisabled(aliases[id]))
    && (forall id | id in aliases && aliases[id].isActive ::
          aliases[id].disabledReason.None? && aliases[id].disabledAt.None? && aliases[id].disabledBy.None?)
  }

  lemma AliasQueries(aliases: Aliases, t: Tables, r: Compiled)
    ensures forall id :: id in AliasesToDisable(aliases, t, r) <==> id in aliases && DisableAlias(aliases[id], t, r)
    ensures forall id :: id in AliasesToEnable(aliases, t, r) <==> id in aliases && EnableAlias(aliases[id], t, r)
  {
    IdOrder();
    AscendingMembers(Disablable(aliases, t, r), IdLe);
    AscendingMembers(Enablable(aliases, t, r), IdLe);
  }

  lemma CascadeKeepsAliases(aliases: Aliases, r: Compiled, sid: Id, now: Time)
    requires AliasesInv(aliases)
    ensures var after := CascadeAliases(aliases, r, sid, now);
            && AliasesInv(after)
            && (forall id | id in aliases && DisableAlias(aliases[id], r.tables, r) ::
                  !after[id].isActive && Enable(after[id]) == aliases[id])
            && (forall id | id in aliases && !aliases[id].isActive ::
                  after[id] == if (aliases[id].assetKey, aliases[id].checkAlias) in Targets(r.tables, r.resumedChecks)
                               then Enable(aliases[id]) else aliases[id])
  {
    AliasQueries(aliases, r.tables, r);
    forall id | id in aliases ensures SystemDisabled(Disable(aliases[id], sid, now)) {
      DisableMarks(aliases[id], sid, now);
    }
  }

  /** An alias that stays disabled next to a check in service: the check was in service before, or it is
      new. A check compiled for the first time is not reported as resumed, so an alias that was disabled
      with its asset before the check existed waits for the check to retire and return. */
  lemma InactiveAliasExplained(aliases: Aliases, t: Tables, r: Compiled, sid: Id, now: Time, id: Id, check: Id)
    requires AliasesInv(aliases) && Moves(t, r) && id in aliases && !aliases[id].isActive
    requires CheckOn(r.tables, check) && Target(r.tables, check) == (aliases[id].assetKey, aliases[id].checkAlias)
    requires aliases[id].assetKey != "" && aliases[id].checkAlias != ""
    ensures !CascadeAliases(aliases, r, sid, now)[id].isActive ==> CheckOn(t, check) || check !in t.checks
    ensures check in t.checks && !CheckOn(t, check) ==> CascadeAliases(aliases, r, sid, now)[id] == Enable(aliases[id])
    ensures (forall c | c in r.resumedChecks :: Target(r.tables, c) != Target(r.tables, check)) ==>
              CascadeAliases(aliases, r, sid, now)[id] == aliases[id]
  {
    CascadeKeepsAliases(aliases, r, sid, now);
    if check in t.checks && !CheckOn(t, check) {
      assert Target(r.tables, check) in Targets(r.tables, r.resumedChecks);
    }
  }

  /** Some check of the list has this asset key and code. */
  ghost predicate NamedBy(t: Tables, ids: seq<Id>, key: string, code: string) {
    exists id :: id in ids && id in t.checks && t.checks[id].assetId in t.assets
                 && t.assets[t.checks[id].assetId].key == key && t.checks[id].code == code
  }

  lemma TargetNamed(t: Tables, ids: seq<Id>, key: string, code: string)
    ensures (key, code) in Targets(t, ids) <==> key != "" && code != "" && NamedBy(t, ids, key, code)
  {
  }

  /** An alias out of use is enabled exactly if it names a check that was brought back, knows the snapshot
      that disabled it and gives a reason that mentions retirement. */
  lemma EnabledExactly(aliases: Aliases, r: Compiled, sid: Id, now: Time, id: Id)
    requires id in aliases && !aliases[id].isActive
    ensures var a := aliases[id];
            CascadeAliases(aliases, r, sid, now)[id] ==
            if a.assetKey != "" && a.checkAlias != "" && NamedBy(r.tables, r.resumedChecks, a.assetKey, a.checkAlias)
               && a.disabledBy.Some? && MentionsRetirement(a.disabledReason)
            then IntentAlias(a.assetKey, a.checkAlias, true, None, None, None)
            else a
  {
    var a := aliases[id];
    AliasQueries(aliases, r.tables, r);
    TargetNamed(r.tables, r.resumedChecks, a.assetKey, a.checkAlias);
    MentionMeaning(a.disabledReason);
    ReasonMentions(a.disabledReason);
  }

  lemma ReasonMentions(reason: Option<string>)
    ensures var text := Lower(Normalized(reason));
            text != "" && ("retired_" <= text || "asset_retired" <= text || Contains(text, "retired")) <==> Contains(text, "retired")
  {
    var text := Lower(Normalized(reason));
    if "retired_" <= text {
      assert text[0..0 + 7] == "retired_"[..7] == "retired";
      ContainsAt(text, "retired", 0);
    }
    if "asset_retired" <= text {
      assert text[6..6 + 7] == "asset_retired"[6..] == "retired";
      ContainsAt(text, "retired", 6);
    }
    assert !("retired" <= "");
  }

  /** An alias in use is disabled exactly if its asset was retired or it names a retired check. */
  lemma DisabledExactly(aliases: Aliases, r: Compiled, sid: Id, now: Time, id: Id)
    requires id in aliases && aliases[id].isActive
    ensures var a := aliases[id];
            CascadeAliases(aliases, r, sid, now)[id] ==
            if a.assetKey != "" && ((exists asset :: asset in r.retiredAssets && asset in r.tables.assets && r.tables.assets[asset].key == a.assetKey)
                                    || (a.checkAlias != "" && NamedBy(r.tables, r.retiredChecks, a.assetKey, a.checkAlias)))
            then IntentAlias(a.assetKey, a.checkAlias, false, Some("retired_missing"), Some(now), Some(sid))
            else a
  {
    var a := aliases[id];
    AliasQueries(aliases, r.tables, r);
    TargetNamed(r.tables, r.retiredChecks, a.assetKey, a.checkAlias);
  }
}
