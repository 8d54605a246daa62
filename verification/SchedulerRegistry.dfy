/** The scheduler's job registry, filled from the stored rows, and the callbacks its jobs lead to:
    `control_plane/scheduler_registry.py` and `runtime/scheduler_runtime.py`. Whether a crontab expression is
    well formed is given. */
module SchedulerRegistry {
  import opened Basics
  import opened Corpus
  import opened AssetCompiler
  import opened Cascade
  import opened WorkerQueue
  import opened ScheduledTriggers

  datatype RuntimePolicy = RuntimePolicy(
    system: Id, enabled: bool, active: bool, schedule: string, scope: string, lastTriggered: Option<Time>)
  {
    predicate On() {
      enabled && active
    }
  }

  type Policies = map<Id, RuntimePolicy>

  // ---- A policy fires at most once a minute ----

  /** A policy that was never triggered counts as triggered in the least minute there is. */
  function MinuteKey(t: Option<Time>): int {
    if t.None? then 0 else Minute(t.value)
  }

  predicate Due(p: RuntimePolicy, at: Time) {
    p.On() && MinuteKey(p.lastTriggered) != Minute(at)
  }

  datatype PolicyEvent = Tick(at: Time) | Configure(enabled: bool, active: bool, schedule: string)

  function After(p: RuntimePolicy, e: PolicyEvent): RuntimePolicy {
    match e
    case Tick(at) => if Due(p, at) then p.(lastTriggered := Some(at)) else p
    case Configure(enabled, active, schedule) => p.(enabled := enabled, active := active, schedule := schedule)
  }

  function AfterAll(p: RuntimePolicy, events: seq<PolicyEvent>): RuntimePolicy {
    if events == [] then p else After(AfterAll(p, events[..|events| - 1]), events[|events| - 1])
  }

  /** The minutes in which the policy enqueued a job. */
  function FiredMinutes(p: RuntimePolicy, events: seq<PolicyEvent>): seq<int> {
    if events == [] then []
    else
      var front, e := events[..|events| - 1], events[|events| - 1];
      FiredMinutes(p, front) + if e.Tick? && Due(AfterAll(p, front), e.at) then [Minute(e.at)] else []
  }

  /** Ticks never go back to an earlier minute, nor before the policy's last trigger. */
  ghost predicate TicksForward(p: RuntimePolicy, events: seq<PolicyEvent>) {
    && (forall i | 0 <= i < |events| && events[i].Tick? :: MinuteKey(p.lastTriggered) <= Minute(events[i].at))
    && (forall i, j | 0 <= i < j < |events| && events[i].Tick? && events[j].Tick? :: Minute(events[i].at) <= Minute(events[j].at))
  }

  ghost predicate Increasing(minutes: seq<int>) {
    forall i, j | 0 <= i < j < |minutes| :: minutes[i] < minutes[j]
  }

  lemma {:induction false} LastTriggerBound(p: RuntimePolicy, events: seq<PolicyEvent>, bound: int)
    requires MinuteKey(p.lastTriggered) <= bound
    requires forall i | 0 <= i < |events| && events[i].Tick? :: Minute(events[i].at) <= bound
    ensures MinuteKey(AfterAll(p, events).lastTriggered) <= bound
  {
    if events != [] {
      var front := events[..|events| - 1];
      assert forall i | 0 <= i < |front| :: front[i] == events[i];
      LastTriggerBound(p, front, bound);
    }
  }

  /** The minutes increase from after `least` up to `last`. */
  ghost predicate Between(minutes: seq<int>, least: int, last: int) {
    && Increasing(minutes) && (forall m | m in minutes :: least < m)
    && last == if minutes == [] then least else minutes[|minutes| - 1]
  }

  lemma BetweenGrows(minutes: seq<int>, least: int, last: int, m: int)
    requires Between(minutes, least, last) && last < m
    ensures Between(minutes + [m], least, m)
  {
    assert minutes != [] ==> minutes[|minutes| - 1] in minutes;
  }

  lemma TicksForwardFront(p: RuntimePolicy, events: seq<PolicyEvent>)
    requires events != [] && TicksForward(p, events)
    ensures TicksForward(p, events[..|events| - 1])
    ensures events[|events| - 1].Tick? ==>
              MinuteKey(AfterAll(p, events[..|events| - 1]).lastTriggered) <= Minute(events[|events| - 1].at)
  {
    var front, e := events[..|events| - 1], events[|events| - 1];
    assert forall i | 0 <= i < |front| :: front[i] == events[i];
    if e.Tick? {
      LastTriggerBound(p, front, Minute(e.at));
    }
  }

  /** However the policy is reconfigured in between: the minutes in which it fires strictly increase, all after
      the one of its last trigger before, and the last of them is the one of its last trigger now. */
  lemma {:induction false} PolicyFiresOncePerMinute(p: RuntimePolicy, events: seq<PolicyEvent>)
    requires TicksForward(p, events)
    ensures Between(FiredMinutes(p, events), MinuteKey(p.lastTriggered), MinuteKey(AfterAll(p, events).lastTriggered))
  {
    if events != [] {
      var front, e := events[..|events| - 1], events[|events| - 1];
      TicksForwardFront(p, events);
      PolicyFiresOncePerMinute(p, front);
      if e.Tick? && Due(AfterAll(p, front), e.at) {
        BetweenGrows(FiredMinutes(p, front), MinuteKey(p.lastTriggered), MinuteKey(AfterAll(p, front).lastTriggered), Minute(e.at));
      }
    }
  }

  /** A policy that stays on fires in every minute in which it is ticked, the minute of its last trigger
      excepted. */
  lemma {:induction false} PolicyNeverMisses(p: RuntimePolicy, events: seq<PolicyEvent>, i: nat)
    requires p.On() && i < |events| && forall k | 0 <= k < |events| :: events[k].Tick?
    ensures AfterAll(p, events).On()
    ensures Minute(events[i].at) in FiredMinutes(p, events) || Minute(events[i].at) == MinuteKey(p.lastTriggered)
  {
    var front, e := events[..|events| - 1], events[|events| - 1];
    assert forall k | 0 <= k < |front| :: front[k] == events[k];
    if front != [] {
      PolicyNeverMisses(p, front, if i < |front| then i else 0);
    }
    LastIsFired(p, front);
  }

  lemma {:induction false} LastIsFired(p: RuntimePolicy, events: seq<PolicyEvent>)
    ensures var m := MinuteKey(AfterAll(p, events).lastTriggered);
            m in FiredMinutes(p, events) || m == MinuteKey(p.lastTriggered)
  {
    if events != [] { LastIsFired(p, events[..|events| - 1]); }
  }

  // ---- Registry entries ----

  datatype Kind = PublishedKind | AuthKind | CrawlKind | UnknownKind

  /** A scheduler job identifier: a kind prefix and what follows the colon. */
  datatype JobKey = JobKey(kind: Kind, subject: Id)

  datatype Callback = Callback(kind: Kind, entity: Id)

  datatype Entry = Entry(schedule: string, timezone: string, callback: Option<Callback>)

  type Registry = map<JobKey, Entry>

  /** A stored row as the registry sees it. */
  datatype Row = Row(key: JobKey, entity: Id, on: bool, schedule: string, timezone: string) {
    function AsEntry(): Entry {
      Entry(schedule, timezone, Some(Callback(key.kind, entity)))
    }
  }

  function PublishedRow(id: Id, job: PublishedJob, timezone: string): Row {
    Row(JobKey(PublishedKind, id), id, job.state == JobActive, job.schedule, timezone)
  }

  function PolicyRow(kind: Kind, id: Id, p: RuntimePolicy): Row {
    Row(JobKey(kind, p.system), id, p.On(), p.schedule, "UTC")
  }

  /** Off rows are taken out, on rows put in; a malformed schedule of an on row is an error. */
  function Upsert(entries: Registry, row: Row): Registry {
    if row.on then entries[row.key := row.AsEntry()] else entries - {row.key}
  }

  predicate Acceptable(validCron: string -> bool, row: Row) {
    row.on ==> validCron(row.schedule)
  }

  /** Rows are taken in order up to the first error. */
  function Load(entries: Registry, rows: seq<Row>, validCron: string -> bool): (Registry, bool) {
    if rows == [] then (entries, true)
    else
      var (before, ok) := Load(entries, rows[..|rows| - 1], validCron);
      if !ok || !Acceptable(validCron, rows[|rows| - 1]) then (before, false)
      else (Upsert(before, rows[|rows| - 1]), true)
  }

  ghost predicate KeysOnce(rows: seq<Row>) {
    forall i, j | 0 <= i < j < |rows| :: rows[i].key != rows[j].key
  }

  ghost predicate Agrees(entries: Registry, row: Row) {
    if row.on then row.key in entries && entries[row.key] == row.AsEntry() else row.key !in entries
  }

  ghost predicate SameAt(a: Registry, b: Registry, key: JobKey) {
    (key in a <==> key in b) && (key in a ==> a[key] == b[key])
  }

  lemma {:induction false} LoadSucceeds(entries: Registry, rows: seq<Row>, validCron: string -> bool)
    ensures Load(entries, rows, validCron).1 <==> forall row | row in rows :: Acceptable(validCron, row)
  {
    if rows != [] {
      LoadSucceeds(entries, rows[..|rows| - 1], validCron);
      SnocSplit(rows);
    }
  }

  lemma {:induction false} LoadKeepsOthers(entries: Registry, rows: seq<Row>, validCron: string -> bool, key: JobKey)
    requires forall row | row in rows :: row.key != key
    ensures SameAt(Load(entries, rows, validCron).0, entries, key)
  {
    if rows != [] {
      SnocSplit(rows);
      LoadKeepsOthers(entries, rows[..|rows| - 1], validCron, key);
      assert rows[|rows| - 1] in rows;
    }
  }

  lemma {:induction false} LoadAgreesAt(entries: Registry, rows: seq<Row>, validCron: string -> bool, row: Row)
    requires KeysOnce(rows) && Load(entries, rows, validCron).1 && row in rows
    ensures Agrees(Load(entries, rows, validCron).0, row)
  {
    var front, last := rows[..|rows| - 1], rows[|rows| - 1];
    SnocSplit(rows);
    if row != last {
      LoadAgreesAt(entries, front, validCron, row);
      var i :| 0 <= i < |front| && front[i] == row;
      assert rows[i].key != last.key;
    }
  }

  /** Loading succeeds exactly when every active row has a well-formed schedule. Then the registry agrees with
      every stored row. In any case an entry for no stored row is left as it was. */
  lemma LoadAgrees(entries: Registry, rows: seq<Row>, validCron: string -> bool)
    requires KeysOnce(rows)
    ensures var (after, ok) := Load(entries, rows, validCron);
            && (ok <==> forall row | row in rows :: Acceptable(validCron, row))
            && (ok ==> forall row | row in rows :: Agrees(after, row))
            && (forall key :: (exists row :: row in rows && row.key == key) || SameAt(after, entries, key))
  {
    LoadSucceeds(entries, rows, validCron);
    var (after, ok) := Load(entries, rows, validCron);
    forall row | ok && row in rows ensures Agrees(after, row) {
      LoadAgreesAt(entries, rows, validCron, row);
    }
    forall key ensures (exists row :: row in rows && row.key == key) || SameAt(after, entries, key) {
      if !exists row :: row in rows && row.key == key {
        LoadKeepsOthers(entries, rows, validCron, key);
      }
    }
  }

  /** Loading again changes nothing. */
  lemma LoadIdempotent(entries: Registry, rows: seq<Row>, validCron: string -> bool)
    requires KeysOnce(rows) && Load(entries, rows, validCron).1
    ensures Load(Load(entries, rows, validCron).0, rows, validCron) == Load(entries, rows, validCron)
  {
    var once := Load(entries, rows, validCron).0;
    var twice := Load(once, rows, validCron).0;
    LoadAgrees(entries, rows, validCron);
    LoadAgrees(once, rows, validCron);
    forall key ensures SameAt(twice, once, key) {
      if exists row :: row in rows && row.key == key {
        var row :| row in rows && row.key == key;
        assert Agrees(once, row) && Agrees(twice, row);
      }
    }
    SameEverywhere(twice, once);
  }

  lemma SameEverywhere(a: Registry, b: Registry)
    requires forall key :: SameAt(a, b, key)
    ensures a == b
  {
    forall key ensures key in a <==> key in b {
      assert SameAt(a, b, key);
    }
    forall key | key in a ensures a[key] == b[key] {
      assert SameAt(a, b, key);
    }
  }

  // ---- Callbacks ----

  /** By the registered arguments if the job is still there, else by the identifier itself. */
  function ResolveCallback(entries: Registry, key: JobKey): Option<Callback> {
    if key in entries && entries[key].callback.Some? then entries[key].callback
    else if key.kind == UnknownKind then None
    else Some(Callback(key.kind, key.subject))
  }

  /** A policy by its identifier, else by its system. */
  function ResolvePolicy(policies: Policies, entity: Id): Option<Id> {
    if entity in policies then Some(entity) else First(PoliciesOf(policies, entity))
  }

  function PoliciesOf(policies: Policies, system: Id): set<Id> {
    set id | id in policies && policies[id].system == system
  }

  lemma ResolvePolicyMeaning(policies: Policies, entity: Id)
    ensures var r := ResolvePolicy(policies, entity);
            && (r.Some? ==> r.value in policies && (r.value == entity || policies[r.value].system == entity))
            && (r.None? <==> entity !in policies && forall id | id in policies :: policies[id].system != entity)
  {
    FirstMeaning(PoliciesOf(policies, entity));
    if ResolvePolicy(policies, entity).None? {
      forall id | id in policies ensures policies[id].system != entity {
        assert id !in PoliciesOf(policies, entity);
      }
    }
  }

  /** After a successful load a fired job leads to the row it was registered for. */
  lemma LoadedJobsResolve(entries: Registry, rows: seq<Row>, validCron: string -> bool, row: Row)
    requires KeysOnce(rows) && Load(entries, rows, validCron).1 && row in rows && row.on
    ensures ResolveCallback(Load(entries, rows, validCron).0, row.key) == Some(Callback(row.key.kind, row.entity))
  {
    LoadAgrees(entries, rows, validCron);
    assert Agrees(Load(entries, rows, validCron).0, row);
  }

  function PolicyJob(kind: Kind, p: RuntimePolicy, now: Time): QueuedJob {
    QueuedJob(if kind == AuthKind then AuthJob else CrawlJob, NO_TARGETS.(system := Ident(p.system), scope := Some(p.scope)),
              Accepted, now, None, None, None)
  }

  function TimezoneOf(timezones: map<Id, string>, id: Id): string {
    if id in timezones then timezones[id] else "UTC"
  }

  function PublishedRows(published: Jobs, timezones: map<Id, string>, ids: seq<Id>): (rows: seq<Row>)
    requires forall id | id in ids :: id in published
    ensures |rows| == |ids| && forall i | 0 <= i < |rows| :: rows[i] == PublishedRow(ids[i], published[ids[i]], TimezoneOf(timezones, ids[i]))
  {
    if ids == [] then []
    else
      var id := ids[|ids| - 1];
      PublishedRows(published, timezones, ids[..|ids| - 1]) + [PublishedRow(id, published[id], TimezoneOf(timezones, id))]
  }

  function PolicyRows(kind: Kind, policies: Policies, ids: seq<Id>): (rows: seq<Row>)
    requires forall id | id in ids :: id in policies
    ensures |rows| == |ids| && forall i | 0 <= i < |rows| :: rows[i] == PolicyRow(kind, ids[i], policies[ids[i]])
  {
    if ids == [] then [] else PolicyRows(kind, policies, ids[..|ids| - 1]) + [PolicyRow(kind, ids[|ids| - 1], policies[ids[|ids| - 1]])]
  }

  function KindOfJob(kind: Kind): JobKind {
    match kind
    case PublishedKind => CheckJob
    case AuthKind => AuthJob
    case CrawlKind => CrawlJob
    case UnknownKind => OtherJob
  }

  /** One accepted job of the callback's kind has joined the queue. */
  ghost predicate AddsOne(before: Queue, after: Queue, kind: Kind) {
    exists q: Id :: q in after && q !in before && after == before[q := after[q]]
                    && after[q].status == Accepted && after[q].kind == KindOfJob(kind)
  }

  /** Published jobs first, then auth policies, then crawl policies. */
  function AllRows(
    published: Jobs, timezones: map<Id, string>, publishedIds: seq<Id>,
    auth: Policies, authIds: seq<Id>, crawl: Policies, crawlIds: seq<Id>): seq<Row>
    requires forall id | id in publishedIds :: id in published
    requires (forall id | id in authIds :: id in auth) && forall id | id in crawlIds :: id in crawl
  {
    PublishedRows(published, timezones, publishedIds) + PolicyRows(AuthKind, auth, authIds) + PolicyRows(CrawlKind, crawl, crawlIds)
  }

  // ---- What a loaded registry says about the stored records ----

  /** The registry has an entry for a published job exactly when the job is stored and active, and then it
      carries the job's schedule and timezone and calls the job. */
  ghost predicate PublishedEntry(entries: Registry, published: Jobs, timezones: map<Id, string>, id: Id) {
    var key := JobKey(PublishedKind, id);
    && (key in entries <==> id in published && published[id].state == JobActive)
    && (key in entries ==>
          && entries[key].schedule == published[id].schedule
          && entries[key].timezone == (if id in timezones then timezones[id] else "UTC")
          && entries[key].callback == Some(Callback(PublishedKind, id)))
  }

  /** The same for the policy of a system, which has to be enabled and active. */
  ghost predicate PolicyEntry(entries: Registry, kind: Kind, policies: Policies, id: Id)
    requires id in policies
  {
    var key := JobKey(kind, policies[id].system);
    && (key in entries <==> policies[id].enabled && policies[id].active)
    && (key in entries ==> entries[key] == Entry(policies[id].schedule, "UTC", Some(Callback(kind, id))))
  }

  lemma PublishedRowAt(published: Jobs, timezones: map<Id, string>, ids: seq<Id>, id: Id)
    requires id in ids && forall i | i in ids :: i in published
    ensures PublishedRow(id, published[id], TimezoneOf(timezones, id)) in PublishedRows(published, timezones, ids)
  {
    var k :| 0 <= k < |ids| && ids[k] == id;
    assert PublishedRows(published, timezones, ids)[k] == PublishedRow(id, published[id], TimezoneOf(timezones, id));
  }

  lemma PolicyRowAt(kind: Kind, policies: Policies, ids: seq<Id>, id: Id)
    requires id in ids && forall i | i in ids :: i in policies
    ensures PolicyRow(kind, id, policies[id]) in PolicyRows(kind, policies, ids)
  {
    var k :| 0 <= k < |ids| && ids[k] == id;
    assert PolicyRows(kind, policies, ids)[k] == PolicyRow(kind, id, policies[id]);
  }

  /** After a successful load the registry says about every loaded record what is stored. */
  lemma LoadedEntries(
    entries: Registry, validCron: string -> bool, published: Jobs, timezones: map<Id, string>, publishedIds: seq<Id>,
    auth: Policies, authIds: seq<Id>, crawl: Policies, crawlIds: seq<Id>)
    requires Distinct(publishedIds) && forall id | id in publishedIds :: id in published
    requires Distinct(authIds) && Distinct(crawlIds) && OnePerSystem(auth) && OnePerSystem(crawl)
    requires (forall id | id in authIds :: id in auth) && forall id | id in crawlIds :: id in crawl
    requires Load(entries, AllRows(published, timezones, publishedIds, auth, authIds, crawl, crawlIds), validCron).1
    ensures var after := Load(entries, AllRows(published, timezones, publishedIds, auth, authIds, crawl, crawlIds), validCron).0;
            && (forall id | id in publishedIds :: PublishedEntry(after, published, timezones, id))
            && (forall id | id in authIds :: PolicyEntry(after, AuthKind, auth, id))
            && (forall id | id in crawlIds :: PolicyEntry(after, CrawlKind, crawl, id))
  {
    var rows := AllRows(published, timezones, publishedIds, auth, authIds, crawl, crawlIds);
    var after := Load(entries, rows, validCron).0;
    RowsHaveDistinctKeys(published, timezones, publishedIds, auth, authIds, crawl, crawlIds);
    LoadAgrees(entries, rows, validCron);
    forall id | id in publishedIds ensures PublishedEntry(after, published, timezones, id) {
      PublishedRowAt(published, timezones, publishedIds, id);
      assert Agrees(after, PublishedRow(id, published[id], TimezoneOf(timezones, id)));
    }
    forall id | id in authIds ensures PolicyEntry(after, AuthKind, auth, id) {
      PolicyRowAt(AuthKind, auth, authIds, id);
      assert Agrees(after, PolicyRow(AuthKind, id, auth[id]));
    }
    forall id | id in crawlIds ensures PolicyEntry(after, CrawlKind, crawl, id) {
      PolicyRowAt(CrawlKind, crawl, crawlIds, id);
      assert Agrees(after, PolicyRow(CrawlKind, id, crawl[id]));
    }
  }

  /** And it succeeds exactly when every active record has a well-formed schedule. */
  lemma LoadSucceedsFor(
    entries: Registry, validCron: string -> bool, published: Jobs, timezones: map<Id, string>, publishedIds: seq<Id>,
    auth: Policies, authIds: seq<Id>, crawl: Policies, crawlIds: seq<Id>)
    requires forall id | id in publishedIds :: id in published
    requires (forall id | id in authIds :: id in auth) && forall id | id in crawlIds :: id in crawl
    ensures Load(entries, AllRows(published, timezones, publishedIds, auth, authIds, crawl, crawlIds), validCron).1 <==>
            && (forall id | id in publishedIds && published[id].state == JobActive :: validCron(published[id].schedule))
            && (forall id | id in authIds && auth[id].enabled && auth[id].active :: validCron(auth[id].schedule))
            && (forall id | id in crawlIds && crawl[id].enabled && crawl[id].active :: validCron(crawl[id].schedule))
  {
    var rows := AllRows(published, timezones, publishedIds, auth, authIds, crawl, crawlIds);
    var p := PublishedRows(published, timezones, publishedIds);
    var a, c := PolicyRows(AuthKind, auth, authIds), PolicyRows(CrawlKind, crawl, crawlIds);
    LoadSucceeds(entries, rows, validCron);
    assert forall row :: row in rows <==> row in p || row in a || row in c;
    AcceptablePublished(published, timezones, publishedIds, validCron);
    AcceptablePolicies(AuthKind, auth, authIds, validCron);
    AcceptablePolicies(CrawlKind, crawl, crawlIds, validCron);
  }

  lemma AcceptablePublished(published: Jobs, timezones: map<Id, string>, ids: seq<Id>, validCron: string -> bool)
    requires forall id | id in ids :: id in published
    ensures (forall row | row in PublishedRows(published, timezones, ids) :: Acceptable(validCron, row)) <==>
            forall id | id in ids && published[id].state == JobActive :: validCron(published[id].schedule)
  {
    forall id | id in ids ensures PublishedRow(id, published[id], TimezoneOf(timezones, id)) in PublishedRows(published, timezones, ids) {
      PublishedRowAt(published, timezones, ids, id);
    }
    forall row | row in PublishedRows(published, timezones, ids)
      ensures exists id :: id in ids && row == PublishedRow(id, published[id], TimezoneOf(timezones, id))
    {
      var k :| 0 <= k < |ids| && PublishedRows(published, timezones, ids)[k] == row;
      assert ids[k] in ids;
    }
  }

  lemma AcceptablePolicies(kind: Kind, policies: Policies, ids: seq<Id>, validCron: string -> bool)
    requires forall id | id in ids :: id in policies
    ensures (forall row | row in PolicyRows(kind, policies, ids) :: Acceptable(validCron, row)) <==>
            forall id | id in ids && policies[id].enabled && policies[id].active :: validCron(policies[id].schedule)
  {
    forall id | id in ids ensures PolicyRow(kind, id, policies[id]) in PolicyRows(kind, policies, ids) {
      PolicyRowAt(kind, policies, ids, id);
    }
    forall row | row in PolicyRows(kind, policies, ids) ensures exists id :: id in ids && row == PolicyRow(kind, id, policies[id]) {
      var k :| 0 <= k < |ids| && PolicyRows(kind, policies, ids)[k] == row;
      assert ids[k] in ids;
    }
  }

  class SchedulerRuntime {
    const service: PublishedJobService
    const validCron: string -> bool
    const timezones: map<Id, string>
    var auth: Policies
    var crawl: Policies
    var entries: Registry

    constructor (
      service: PublishedJobService, validCron: string -> bool, timezones: map<Id, string>,
      auth: Policies, crawl: Policies, entries: Registry)
      ensures this.service == service && this.validCron == validCron && this.timezones == timezones
      ensures this.auth == auth && this.crawl == crawl && this.entries == entries
    {
      this.service, this.validCron, this.timezones := service, validCron, timezones;
      this.auth, this.crawl, this.entries := auth, crawl, entries;
    }

    method UpsertRow(row: Row) returns (ok: bool)
      modifies `entries
      ensures ok == Acceptable(validCron, row)
      ensures entries == if ok then Upsert(old(entries), row) else old(entries)
    {
      if !row.on {
        entries := entries - {row.key};
        return true;
      }
      if !validCron(row.schedule) {
        return false;
      }
      entries := entries[row.key := row.AsEntry()];
      ok := true;
    }

    /** The row of one published job; a job that is gone leaves the registry. */
    method UpsertPublished(id: Id) returns (ok: bool)
      modifies `entries
      ensures id in service.published ==>
                var row := PublishedRow(id, service.published[id], TimezoneOf(timezones, id));
                ok == Acceptable(validCron, row) && entries == if ok then Upsert(old(entries), row) else old(entries)
      ensures id !in service.published ==> ok && entries == old(entries) - {JobKey(PublishedKind, id)}
      ensures ok <==> (id in service.published && service.published[id].state == JobActive ==> validCron(service.published[id].schedule))
      ensures ok ==> PublishedEntry(entries, service.published, timezones, id)
      ensures forall key | key != JobKey(PublishedKind, id) || !ok :: SameAt(entries, old(entries), key)
    {
      if id !in service.published {
        entries := entries - {JobKey(PublishedKind, id)};
        return true;
      }
      ok := UpsertRow(PublishedRow(id, service.published[id], TimezoneOf(timezones, id)));
    }

    method LoadRows(rows: seq<Row>) returns (ok: bool)
      modifies `entries
      ensures (entries, ok) == Load(old(entries), rows, validCron)
    {
      ok := true;
      for i := 0 to |rows|
        invariant (entries, ok) == Load(old(entries), rows[..i], validCron) && ok
      {
        TakeTake(rows, i);
        ok := UpsertRow(rows[i]);
        if !ok {
          LoadStops(old(entries), rows, validCron, i);
          return;
        }
      }
      assert rows[..|rows|] == rows;
    }

    method LoadAllFromDb(publishedIds: seq<Id>, authIds: seq<Id>, crawlIds: seq<Id>) returns (ok: bool)
      requires forall id | id in publishedIds :: id in service.published
      requires (forall id | id in authIds :: id in auth) && forall id | id in crawlIds :: id in crawl
      modifies `entries
      ensures (entries, ok) == Load(old(entries), AllRows(service.published, timezones, publishedIds, auth, authIds, crawl, crawlIds), validCron)
      ensures ok && Distinct(publishedIds) && Distinct(authIds) && Distinct(crawlIds) && OnePerSystem(auth) && OnePerSystem(crawl) ==>
                && (forall id | id in publishedIds :: PublishedEntry(entries, service.published, timezones, id))
                && (forall id | id in authIds :: PolicyEntry(entries, AuthKind, auth, id))
                && (forall id | id in crawlIds :: PolicyEntry(entries, CrawlKind, crawl, id))
    {
      ghost var before := entries;
      ok := LoadRows(AllRows(service.published, timezones, publishedIds, auth, authIds, crawl, crawlIds));
      if ok && Distinct(publishedIds) && Distinct(authIds) && Distinct(crawlIds) && OnePerSystem(auth) && OnePerSystem(crawl) {
        LoadedEntries(before, validCron, service.published, timezones, publishedIds, auth, authIds, crawl, crawlIds);
      }
    }

    method TriggerAuthPolicy(entity: Id, at: Time, now: Time) returns (fired: bool)
      requires service.Valid()
      modifies `auth, service`jobs, service`nextId
      ensures service.Valid()
      ensures var r := ResolvePolicy(auth, entity);
              && fired == (var o := ResolvePolicy(old(auth), entity); o.Some? && o.value in old(auth) && Due(old(auth)[o.value], at))
              && (!fired ==> auth == old(auth) && service.jobs == old(service.jobs))
      ensures fired ==> var o := ResolvePolicy(old(auth), entity);
                        && o.Some? && o.value in old(auth)
                        && auth == old(auth)[o.value := old(auth)[o.value].(lastTriggered := Some(at))]
                        && service.jobs == old(service.jobs)[old(service.nextId) := PolicyJob(AuthKind, old(auth)[o.value], now)]
      ensures fired <==> var o := ResolvePolicy(old(auth), entity);
                        && o.Some? && o.value in old(auth)
                        && var p := old(auth)[o.value];
                           p.enabled && p.active && (if p.lastTriggered.None? then Minute(at) != 0 else Minute(p.lastTriggered.value) != Minute(at))
      ensures fired ==> var o := ResolvePolicy(old(auth), entity);
                        && o.Some? && o.value in old(auth) && old(service.nextId) in service.jobs
                        && var q := service.jobs[old(service.nextId)];
                           && q.kind == AuthJob && q.status == Accepted && q.createdAt == now
                           && q.payload.system == Ident(old(auth)[o.value].system) && q.payload.scope == Some(old(auth)[o.value].scope)
    {
      ResolvePolicyMeaning(auth, entity);
      fired := false;
      var found := ResolvePolicy(auth, entity);
      if found.Some? && Due(auth[found.value], at) {
        service.Enqueue(PolicyJob(AuthKind, auth[found.value], now));
        auth := auth[found.value := auth[found.value].(lastTriggered := Some(at))];
        fired := true;
      }
    }

    method TriggerCrawlPolicy(entity: Id, at: Time, now: Time) returns (fired: bool)
      requires service.Valid()
      modifies `crawl, service`jobs, service`nextId
      ensures service.Valid()
      ensures fired == (var o := ResolvePolicy(old(crawl), entity); o.Some? && o.value in old(crawl) && Due(old(crawl)[o.value], at))
      ensures !fired ==> crawl == old(crawl) && service.jobs == old(service.jobs)
      ensures fired ==> var o := ResolvePolicy(old(crawl), entity);
                        && o.Some? && o.value in old(crawl)
                        && crawl == old(crawl)[o.value := old(crawl)[o.value].(lastTriggered := Some(at))]
                        && service.jobs == old(service.jobs)[old(service.nextId) := PolicyJob(CrawlKind, old(crawl)[o.value], now)]
      ensures fired <==> var o := ResolvePolicy(old(crawl), entity);
                        && o.Some? && o.value in old(crawl)
                        && var p := old(crawl)[o.value];
                           p.enabled && p.active && (if p.lastTriggered.None? then Minute(at) != 0 else Minute(p.lastTriggered.value) != Minute(at))
      ensures fired ==> var o := ResolvePolicy(old(crawl), entity);
                        && o.Some? && o.value in old(crawl) && old(service.nextId) in service.jobs
                        && var q := service.jobs[old(service.nextId)];
                           && q.kind == CrawlJob && q.status == Accepted && q.createdAt == now
                           && q.payload.system == Ident(old(crawl)[o.value].system) && q.payload.scope == Some(old(crawl)[o.value].scope)
    {
      ResolvePolicyMeaning(crawl, entity);
      fired := false;
      var found := ResolvePolicy(crawl, entity);
      if found.Some? && Due(crawl[found.value], at) {
        service.Enqueue(PolicyJob(CrawlKind, crawl[found.value], now));
        crawl := crawl[found.value := crawl[found.value].(lastTriggered := Some(at))];
        fired := true;
      }
    }

    /** The stored row a callback leads to is active at this moment. */
    ghost predicate TargetLive(c: Callback, at: Time)
      reads this, service
    {
      match c.kind
      case PublishedKind =>
        c.entity in service.published && service.published[c.entity].state == JobActive
        && service.cronMatches(service.published[c.entity].schedule, Minute(at))
      case AuthKind => exists id :: id in auth && (id == c.entity || auth[id].system == c.entity) && auth[id].On()
      case CrawlKind => exists id :: id in crawl && (id == c.entity || crawl[id].system == c.entity) && crawl[id].On()
      case UnknownKind => false
    }

    /** When a callback enqueues something. */
    ghost predicate WouldFire(c: Callback, at: Time)
      reads this, service
    {
      match c.kind
      case PublishedKind => MayFire(service.published, service.runs, service.cronMatches, c.entity, at)
      case AuthKind => var o := ResolvePolicy(auth, c.entity); o.Some? && o.value in auth && Due(auth[o.value], at)
      case CrawlKind => var o := ResolvePolicy(crawl, c.entity); o.Some? && o.value in crawl && Due(crawl[o.value], at)
      case UnknownKind => false
    }

    /** A job of the scheduler fires. Whatever the registry holds, stale entries included: something is enqueued
        only if the stored row the callback leads to is active at that moment; otherwise nothing changes. */
    method OnSchedulerJobEvent(key: JobKey, at: Time, now: Time) returns (fired: bool)
      requires service.Valid()
      modifies `auth, `crawl, service`runs, service`jobs, service`nextId
      ensures service.Valid()
      ensures fired <==> ResolveCallback(entries, key).Some? && old(WouldFire(ResolveCallback(entries, key).value, at))
      ensures fired ==> old(TargetLive(ResolveCallback(entries, key).value, at))
      ensures if fired then AddsOne(old(service.jobs), service.jobs, ResolveCallback(entries, key).value.kind)
              else service.jobs == old(service.jobs)
      ensures !fired ==> auth == old(auth) && crawl == old(crawl) && service.runs == old(service.runs)
    {
      fired := false;
      ghost var first, second := service.nextId, service.nextId + 1;
      assert first !in service.jobs && second !in service.jobs;
      var callback := ResolveCallback(entries, key);
      if callback.None? {
        return;
      }
      var entity := callback.value.entity;
      match callback.value.kind {
        case PublishedKind => fired := service.TriggerScheduled(entity, at, now);
        case AuthKind =>
          ResolvePolicyMeaning(auth, entity);
          fired := TriggerAuthPolicy(entity, at, now);
        case CrawlKind =>
          ResolvePolicyMeaning(crawl, entity);
          fired := TriggerCrawlPolicy(entity, at, now);
        case UnknownKind =>
      }
    }
  }

  /** The table constraint: one policy a system. */
  ghost predicate OnePerSystem(policies: Policies) {
    forall a, b | a in policies && b in policies && policies[a].system == policies[b].system :: a == b
  }

  /** With distinct identifiers and one policy a system no two rows share a registry key. */
  lemma RowsHaveDistinctKeys(
    published: Jobs, timezones: map<Id, string>, publishedIds: seq<Id>,
    auth: Policies, authIds: seq<Id>, crawl: Policies, crawlIds: seq<Id>)
    requires Distinct(publishedIds) && forall id | id in publishedIds :: id in published
    requires Distinct(authIds) && Distinct(crawlIds) && OnePerSystem(auth) && OnePerSystem(crawl)
    requires (forall id | id in authIds :: id in auth) && forall id | id in crawlIds :: id in crawl
    ensures KeysOnce(AllRows(published, timezones, publishedIds, auth, authIds, crawl, crawlIds))
  {
    var p := PublishedRows(published, timezones, publishedIds);
    var a, c := PolicyRows(AuthKind, auth, authIds), PolicyRows(CrawlKind, crawl, crawlIds);
    PolicyKeysOnce(AuthKind, auth, authIds);
    PolicyKeysOnce(CrawlKind, crawl, crawlIds);
    KeysOnceAppend(p, a, {PublishedKind}, {AuthKind});
    KeysOnceAppend(p + a, c, {PublishedKind, AuthKind}, {CrawlKind});
  }

  lemma PolicyKeysOnce(kind: Kind, policies: Policies, ids: seq<Id>)
    requires Distinct(ids) && OnePerSystem(policies) && forall id | id in ids :: id in policies
    ensures KeysOnce(PolicyRows(kind, policies, ids))
  {
    var rows := PolicyRows(kind, policies, ids);
    forall i, j | 0 <= i < j < |rows| ensures rows[i].key != rows[j].key {
      assert ids[i] in ids && ids[j] in ids;
    }
  }

  lemma KeysOnceAppend(a: seq<Row>, b: seq<Row>, as_: set<Kind>, bs: set<Kind>)
    requires KeysOnce(a) && KeysOnce(b) && as_ !! bs
    requires (forall i | 0 <= i < |a| :: a[i].key.kind in as_) && forall i | 0 <= i < |b| :: b[i].key.kind in bs
    ensures KeysOnce(a + b)
  {
  }

  /** After the first error nothing more is loaded. */
  lemma {:induction false} LoadStops(entries: Registry, rows: seq<Row>, validCron: string -> bool, i: nat)
    requires i < |rows| && !Acceptable(validCron, rows[i]) && Load(entries, rows[..i], validCron).1
    ensures Load(entries, rows, validCron) == (Load(entries, rows[..i], validCron).0, false)
  {
    var front := rows[..|rows| - 1];
    if i < |front| {
      assert front[..i] == rows[..i];
      LoadStops(entries, front, validCron, i);
    }
  }
}
