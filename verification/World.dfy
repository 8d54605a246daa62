/** Whole runs: crawls, compile submissions, compiles with their cascades, publishing and alias creation,
    in any order, from an empty platform. */
module World {
  import opened Basics
  import opened Corpus
  import CorpusHistory
  import opened AssetCompiler
  import opened LifecycleLaws
  import opened Cascade

  datatype World = World(
    corpus: Corpus, systems: map<Id, string>, tables: Tables, jobs: Jobs, aliases: Aliases)

  datatype Event =
    /** A crawl job that succeeds. */
    | CrawlDone(crawl: Crawl, now: Time)
    /** A crawl job that fails after writing a snapshot and some facts, which are committed with the failure. */
    | CrawlBroken(crawl: Crawl)
    /** A compile requested by hand. */
    | Submit(snapshot: Id)
    /** An asset-compile job; its cascade is a second transaction that may fail. */
    | CompileJob(snapshot: Id, now: Time, cascaded: bool)
    | Publish(job: Id, check: Id, schedule: string, enabled: bool)
    | AddAlias(alias: Id, assetKey: string, checkAlias: string)

  function Start(systems: map<Id, string>): World {
    World(CorpusHistory.EMPTY, systems, Tables(map[], map[], 0), map[], map[])
  }

  function NewJob(check: Id, schedule: string, enabled: bool): PublishedJob {
    PublishedJob(check, schedule, if enabled then JobActive else JobPaused, None, None, None, None)
  }

  /** Switch, compile body, commit; then the cascade. Errors roll the whole compile back. */
  function CompileStep(w: World, sid: Id, now: Time, cascaded: bool): World {
    if sid !in w.corpus.snapshots || w.corpus.snapshots[sid].systemId !in w.systems then w
    else
      var (corpus, outcome) := Switch(w.corpus, sid, now);
      if outcome.Err? then w
      else if !outcome.value.Promoted? || sid !in corpus.snapshots then w.(corpus := corpus)
      else
        var row := corpus.snapshots[sid];
        Finish(w.(corpus := corpus), CompileBody(w.tables, corpus.facts, sid, row, w.systems[row.systemId], now), sid, now, cascaded)
  }

  /** Commit the compiled tables, then cascade. */
  function Finish(w: World, r: Compiled, sid: Id, now: Time, cascaded: bool): World {
    var compiled := w.(tables := r.tables);
    if cascaded then
      compiled.(jobs := CascadeJobs(w.jobs, r, sid), aliases := CascadeAliases(w.aliases, r, sid, now))
    else compiled
  }

  ghost function Step(w: World, e: Event): World {
    if e.CompileJob? then CompileStep(w, e.snapshot, e.now, e.cascaded) else SimpleStep(w, e)
  }

  ghost function SimpleStep(w: World, e: Event): World
    requires !e.CompileJob?
  {
    match e
    case CrawlDone(crawl, now) =>
      if crawl.systemId in w.systems && Admissible(w.corpus, crawl) then w.(corpus := CrawlSucceeded(w.corpus, crawl, now)) else w
    case CrawlBroken(crawl) =>
      if crawl.systemId in w.systems && Admissible(w.corpus, crawl) then w.(corpus := PersistCrawl(w.corpus, crawl)) else w
    case Submit(sid) =>
      if sid in w.corpus.snapshots then w.(corpus := w.corpus.(compileTargets := w.corpus.compileTargets + {sid})) else w
    case Publish(job, check, schedule, enabled) =>
      if check in w.tables.checks && job !in w.jobs then w.(jobs := w.jobs[job := NewJob(check, schedule, enabled)]) else w
    case AddAlias(id, key, code) =>
      if id !in w.aliases then w.(aliases := w.aliases[id := IntentAlias(key, code, true, None, None, None)]) else w
  }

  ghost function Exec(w: World, events: seq<Event>): World {
    if events == [] then w else Step(Exec(w, events[..|events| - 1]), events[|events| - 1])
  }

  // ---- Invariants of every run ----

  /** A system that runs promote through the switch only ever compiles full, sound snapshots that score at
      least 0.9, which is what keeps assets and checks in step. */
  ghost predicate Sound(w: World) {
    && CorpusHistory.Inv(w.corpus)
    && TablesInv(w.tables)
    && AliasesInv(w.aliases)
    && (forall id | id in w.jobs :: w.jobs[id].checkId in w.tables.checks)
    && (forall id | id in w.jobs && w.jobs[id].state == JobActive :: Unmarked(w.jobs[id]))
  }

  /** The corpus part of a compile, and what the body starts from when it runs. */
  lemma CompileStart(w: World, sid: Id, now: Time)
    requires CorpusHistory.Inv(w.corpus)
    ensures var (corpus, outcome) := Switch(w.corpus, sid, now);
            && CorpusHistory.Inv(corpus)
            && (sid in w.corpus.snapshots ==>
                  sid in corpus.snapshots && corpus.snapshots[sid].systemId == w.corpus.snapshots[sid].systemId)
            && (outcome.Ok? && outcome.value.Promoted? ==> sid in corpus.snapshots && GoodSnapshot(corpus.snapshots[sid]))
  {
    CorpusHistory.SwitchProgress(w.corpus, sid, now);
    CorpusHistory.SwitchInv(w.corpus, sid, now);
    CorpusHistory.SwitchOutcomeMeaning(w.corpus, sid, now);
  }

  /** Job references and clean active jobs survive with or without the cascade. */
  lemma JobsStayLinked(jobs: Jobs, t: Tables, r: Compiled, sid: Id)
    requires Moves(t, r)
    requires forall id | id in jobs :: jobs[id].checkId in t.checks
    requires forall id | id in jobs && jobs[id].state == JobActive :: Unmarked(jobs[id])
    ensures var after := CascadeJobs(jobs, r, sid);
            && (forall id | id in after :: after[id].checkId in r.tables.checks)
            && (forall id | id in after && after[id].state == JobActive :: Unmarked(after[id]))
  {
  }

  lemma CorpusStepSound(w: World, e: Event)
    requires Sound(w) && (e.CrawlDone? || e.CrawlBroken? || e.Submit?)
    ensures CorpusHistory.Inv(SimpleStep(w, e).corpus) && CorpusHistory.Progress(w.corpus, SimpleStep(w, e).corpus)
    ensures SimpleStep(w, e) == w.(corpus := SimpleStep(w, e).corpus)
  {
    match e
    case CrawlDone(crawl, now) =>
      if crawl.systemId in w.systems && Admissible(w.corpus, crawl) {
        CorpusHistory.CrawlInv(w.corpus, crawl, now);
        CorpusHistory.CrawlProgress(w.corpus, crawl, now);
      }
    case CrawlBroken(crawl) =>
      if crawl.systemId in w.systems && Admissible(w.corpus, crawl) {
        CorpusHistory.PersistInv(w.corpus, crawl);
        CorpusHistory.CrawlProgress(w.corpus, crawl, 0);
      }
    case Submit(sid) =>
      var after := w.corpus.(compileTargets := w.corpus.compileTargets + {sid});
      CorpusHistory.DraftsDroppedInv(w.corpus, after);
      CorpusHistory.DraftsDroppedProgress(w.corpus, after);
    case _ =>
  }

  lemma NewJobUnmarked(check: Id, schedule: string, enabled: bool)
    ensures Unmarked(NewJob(check, schedule, enabled)) && !Marked(NewJob(check, schedule, enabled))
  {
  }

  lemma PublishSound(w: World, id: Id, job: PublishedJob)
    requires Sound(w) && id !in w.jobs && job.checkId in w.tables.checks && Unmarked(job) && !Marked(job)
    ensures Sound(w.(jobs := w.jobs[id := job]))
    ensures JobsInv(w.jobs, w.tables) ==> JobsInv(w.jobs[id := job], w.tables)
  {
  }

  lemma AliasSound(w: World, id: Id, key: string, code: string)
    requires Sound(w) && id !in w.aliases
    ensures Sound(w.(aliases := w.aliases[id := IntentAlias(key, code, true, None, None, None)]))
  {
  }

  lemma SimpleStepSound(w: World, e: Event)
    requires Sound(w) && !e.CompileJob?
    ensures Sound(SimpleStep(w, e)) && CorpusHistory.Progress(w.corpus, SimpleStep(w, e).corpus)
    ensures JobsInv(w.jobs, w.tables) ==> JobsInv(SimpleStep(w, e).jobs, SimpleStep(w, e).tables)
  {
    if e.Publish? {
      if e.check in w.tables.checks && e.job !in w.jobs {
        NewJobUnmarked(e.check, e.schedule, e.enabled);
        PublishSound(w, e.job, NewJob(e.check, e.schedule, e.enabled));
      }
    } else if e.AddAlias? {
      if e.alias !in w.aliases {
        AliasSound(w, e.alias, e.assetKey, e.checkAlias);
      }
    } else {
      CorpusStepSound(w, e);
    }
  }

  /** One step keeps the laws; the law on paused jobs needs a compile's cascade to succeed. */
  lemma StepSound(w: World, e: Event)
    requires Sound(w)
    ensures Sound(Step(w, e)) && CorpusHistory.Progress(w.corpus, Step(w, e).corpus)
    ensures JobsInv(w.jobs, w.tables) && (e.CompileJob? ==> e.cascaded) ==> JobsInv(Step(w, e).jobs, Step(w, e).tables)
  {
    if e.CompileJob? {
      CompileSound(w, e.snapshot, e.now, e.cascaded);
    } else {
      SimpleStepSound(w, e);
    }
  }

  lemma FinishSound(w: World, r: Compiled, sid: Id, now: Time, cascaded: bool)
    requires Sound(w) && Moves(w.tables, r)
    ensures Sound(Finish(w, r, sid, now, cascaded))
    ensures cascaded && JobsInv(w.jobs, w.tables) ==> JobsInv(Finish(w, r, sid, now, cascaded).jobs, r.tables)
    ensures cascaded && JobsInv(w.jobs, w.tables) && ActiveOn(w.jobs, w.tables) ==> ActiveOn(Finish(w, r, sid, now, cascaded).jobs, r.tables)
  {
    JobsStayLinked(w.jobs, w.tables, r, sid);
    CascadeKeepsAliases(w.aliases, r, sid, now);
    if JobsInv(w.jobs, w.tables) {
      CascadeKeepsJobs(w.jobs, w.tables, r, sid);
    }
  }

  lemma CorpusReplaced(w: World, corpus: Corpus)
    requires Sound(w) && CorpusHistory.Inv(corpus)
    ensures Sound(w.(corpus := corpus))
  {
  }

  /** The compile job gets to its body. */
  ghost predicate ReachesBody(w: World, sid: Id, now: Time) {
    && sid in w.corpus.snapshots && w.corpus.snapshots[sid].systemId in w.systems
    && var outcome := Switch(w.corpus, sid, now).1;
       outcome.Ok? && outcome.value.Promoted?
  }

  lemma CompileStops(w: World, sid: Id, now: Time, cascaded: bool)
    requires !ReachesBody(w, sid, now)
    ensures CompileStep(w, sid, now, cascaded) == w || CompileStep(w, sid, now, cascaded) == w.(corpus := Switch(w.corpus, sid, now).0)
  {
  }

  lemma CompileRuns(w: World, sid: Id, now: Time, cascaded: bool) returns (r: Compiled)
    requires Sound(w) && ReachesBody(w, sid, now)
    ensures Moves(w.tables, r)
    ensures CompileStep(w, sid, now, cascaded) == Finish(w.(corpus := Switch(w.corpus, sid, now).0), r, sid, now, cascaded)
  {
    CompileStart(w, sid, now);
    var corpus := Switch(w.corpus, sid, now).0;
    var row := corpus.snapshots[sid];
    CompileBodyMoves(w.tables, corpus.facts, sid, row, w.systems[row.systemId], now);
    r := CompileBody(w.tables, corpus.facts, sid, row, w.systems[row.systemId], now);
  }

  /** A compile either leaves everything but the snapshots alone or finishes a body that moves checks
      lawfully. */
  lemma CompileStepCases(w: World, sid: Id, now: Time, cascaded: bool) returns (v: World, r: Compiled)
    requires Sound(w)
    ensures Sound(v) && v == w.(corpus := v.corpus)
    ensures v.corpus == w.corpus || v.corpus == Switch(w.corpus, sid, now).0
    ensures CompileStep(w, sid, now, cascaded) == v
            || (Moves(v.tables, r) && CompileStep(w, sid, now, cascaded) == Finish(v, r, sid, now, cascaded))
  {
    v := w;
    r := Compiled(w.tables, [], [], []);
    if sid in w.corpus.snapshots {
      var corpus := Switch(w.corpus, sid, now).0;
      CompileStart(w, sid, now);
      CorpusReplaced(w, corpus);
      if ReachesBody(w, sid, now) {
        v := w.(corpus := corpus);
        r := CompileRuns(w, sid, now, cascaded);
      } else {
        CompileStops(w, sid, now, cascaded);
        v := CompileStep(w, sid, now, cascaded);
      }
    }
  }

  lemma CompileSound(w: World, sid: Id, now: Time, cascaded: bool)
    requires Sound(w)
    ensures Sound(CompileStep(w, sid, now, cascaded))
    ensures cascaded && JobsInv(w.jobs, w.tables) ==>
              JobsInv(CompileStep(w, sid, now, cascaded).jobs, CompileStep(w, sid, now, cascaded).tables)
    ensures cascaded && JobsInv(w.jobs, w.tables) && ActiveOn(w.jobs, w.tables) ==>
              ActiveOn(CompileStep(w, sid, now, cascaded).jobs, CompileStep(w, sid, now, cascaded).tables)
    ensures CorpusHistory.Progress(w.corpus, CompileStep(w, sid, now, cascaded).corpus)
  {
    CorpusHistory.SwitchProgress(w.corpus, sid, now);
    var v, r := CompileStepCases(w, sid, now, cascaded);
    if Moves(v.tables, r) {
      FinishSound(v, r, sid, now, cascaded);
    }
  }

  /** In every state reached by any run: the snapshot and history laws hold, every check in service belongs
      to an asset in service, published jobs point to checks, active jobs carry no pause marker, and every
      disabled alias can be enabled again. */
  lemma {:induction false} EveryRunSound(systems: map<Id, string>, events: seq<Event>)
    ensures Sound(Exec(Start(systems), events))
  {
    if events == [] {
      CorpusHistory.EmptyInv();
    } else {
      EveryRunSound(systems, events[..|events| - 1]);
      StepSound(Exec(Start(systems), events[..|events| - 1]), events[|events| - 1]);
    }
  }

  // ---- Published jobs ----

  ghost predicate CascadesSucceed(events: seq<Event>) {
    forall i | 0 <= i < |events| && events[i].CompileJob? :: events[i].cascaded
  }

  /** A job published active is one of a check in service at that moment. The service does not ask. */
  ghost predicate InService(w: World, e: Event) {
    e.Publish? && e.enabled && e.check in w.tables.checks && e.job !in w.jobs ==> CheckOn(w.tables, e.check)
  }

  ghost predicate PublishedInService(systems: map<Id, string>, events: seq<Event>) {
    forall i | 0 <= i < |events| :: InService(Exec(Start(systems), events[..i]), events[i])
  }

  /** Outside compiles the law on active jobs breaks exactly at such a publication. */
  lemma SimpleStepActive(w: World, e: Event)
    requires !e.CompileJob? && ActiveOn(w.jobs, w.tables)
    ensures ActiveOn(SimpleStep(w, e).jobs, SimpleStep(w, e).tables) <==> InService(w, e)
  {
    if e.Publish? && e.check in w.tables.checks && e.job !in w.jobs {
      var after := w.jobs[e.job := NewJob(e.check, e.schedule, e.enabled)];
      assert e.job in after;
      assert forall id | id in w.jobs :: after[id] == w.jobs[id];
    }
  }

  /** In every run whose cascades succeed, a job paused for retirement belongs to a check that is out of
      service; and if active jobs are published for checks in service only, every active job belongs to a
      check in service. */
  lemma {:induction false} EveryRunKeepsJobs(systems: map<Id, string>, events: seq<Event>)
    requires CascadesSucceed(events)
    ensures var w := Exec(Start(systems), events);
            JobsInv(w.jobs, w.tables) && (PublishedInService(systems, events) ==> ActiveOn(w.jobs, w.tables))
  {
    if events != [] {
      var front, last := events[..|events| - 1], events[|events| - 1];
      var w := Exec(Start(systems), front);
      assert CascadesSucceed(front);
      EveryRunKeepsJobs(systems, front);
      EveryRunSound(systems, front);
      StepSound(w, last);
      if PublishedInService(systems, events) {
        PublishedInFront(systems, events);
        if last.CompileJob? {
          CompileSound(w, last.snapshot, last.now, last.cascaded);
        } else {
          SimpleStepActive(w, last);
        }
      }
    }
  }

  lemma PublishedInFront(systems: map<Id, string>, events: seq<Event>)
    requires events != [] && PublishedInService(systems, events)
    ensures PublishedInService(systems, events[..|events| - 1])
    ensures InService(Exec(Start(systems), events[..|events| - 1]), events[|events| - 1])
  {
    var front := events[..|events| - 1];
    forall i | 0 <= i < |front| ensures InService(Exec(Start(systems), front[..i]), front[i]) {
      assert front[..i] == events[..i] && front[i] == events[i];
    }
  }

  // ---- Snapshot rows over a run ----

  /** However a run goes on: discarded snapshots stay as they are, a system that has an active snapshot
      keeps having one, facts are never lost and history only grows at its end. */
  lemma {:induction false} RunsProgress(systems: map<Id, string>, events: seq<Event>, more: seq<Event>)
    ensures CorpusHistory.Progress(Exec(Start(systems), events).corpus, Exec(Start(systems), events + more).corpus)
  {
    var w := Exec(Start(systems), events);
    if more == [] {
      assert events + more == events;
    } else {
      var front := more[..|more| - 1];
      RunsProgress(systems, events, front);
      EveryRunSound(systems, events + front);
      assert (events + more)[..|events + more| - 1] == events + front;
      var v := Exec(Start(systems), events + front);
      StepSound(v, more[|more| - 1]);
      CorpusHistory.ProgressTransitive(w.corpus, v.corpus, Step(v, more[|more| - 1]).corpus);
    }
  }
}
