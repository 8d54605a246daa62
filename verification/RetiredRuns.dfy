/** The worker and the compile agree on which checks run: `jobs/run_check_job.py` against the tables that
    `asset_compiler/service.py` leaves. */
module RetiredRuns {
  import opened Corpus
  import opened AssetCompiler
  import opened LifecycleLaws
  import opened Cascade
  import opened WorkerQueue

  /** A job for a precompiled check whose entries fit each other. */
  ghost predicate Proper(p: Payload, requests: set<Id>, runs: map<Id, JobRun>, published: Jobs) {
    && p.track == Precompiled && PayloadUsable(p, requests) && RunUsable(p, runs) && LinkageFits(p, runs)
    && (p.publishedJob.Ident? && p.publishedJob.id in published ==> published[p.publishedJob.id].checkId == p.pageCheck.id)
  }

  /** Its published job, if it has one, is paused for retirement. */
  ghost predicate PausedForRetirement(p: Payload, published: Jobs) {
    p.publishedJob.Ident? && p.publishedJob.id in published && Marked(published[p.publishedJob.id])
  }

  /** Under the lifecycle law the worker refuses a job exactly if its check is out of service or its
      published job is paused for retirement; any other job ends as its service run ends. */
  lemma RefusedExactly(
    p: Payload, requests: set<Id>, runs: map<Id, JobRun>, tables: Tables, published: Jobs, s: Services)
    requires TablesInv(tables) && Proper(p, requests, runs, published)
    ensures var refused := !CheckOn(tables, p.pageCheck.id) || PausedForRetirement(p, published);
            CheckVerdict(p, requests, runs, tables, published, s) ==
            if refused then Skipped
            else if s.raised.Some? then Failed
            else match s.check case CheckRan(_) => Completed case CheckBlocked => Skipped case CheckGaveUp(_) => Failed
  {
    if CheckOn(tables, p.pageCheck.id) {
      assert AssetOn(tables, tables.checks[p.pageCheck.id].assetId);
    }
  }

  /** And under the job law, which holds while cascades succeed, exactly if its check is out of service. */
  lemma RefusedIfRetired(
    p: Payload, requests: set<Id>, runs: map<Id, JobRun>, tables: Tables, published: Jobs, s: Services)
    requires TablesInv(tables) && JobsInv(published, tables) && Proper(p, requests, runs, published)
    ensures CheckVerdict(p, requests, runs, tables, published, s) ==
            if !CheckOn(tables, p.pageCheck.id) then Skipped
            else if s.raised.Some? then Failed
            else match s.check case CheckRan(_) => Completed case CheckBlocked => Skipped case CheckGaveUp(_) => Failed
  {
    RefusedExactly(p, requests, runs, tables, published, s);
  }
}
