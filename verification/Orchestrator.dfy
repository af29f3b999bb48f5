/** Alert dispatch accounting and the alert-context cache (apps/orchestrator/src/main.rs).

    One serial worker with a repository whose calls succeed. Delivery by the notifier changes
    neither the lifecycle table nor the usage table, so its result does not appear. */
module Orchestrator {
  import opened Common
  import opened Finality

  datatype Severity = Info | Low | Medium | High | Critical

  datatype Alert = Alert(
    alertId: string,
    eventKey: Option<string>,
    tenantId: Option<string>,
    patternId: string,
    severity: Severity,
    lifecycleState: LifecycleState,
    simulationRunId: Option<string>,
    createdAt: int)

  datatype UsageKind = AlertFired | SuppressedDuplicate | SuppressedQuota

  datatype UsageEvent = UsageEvent(tenant: string, kind: UsageKind, recordedAt: int)

  /** `lifecycle` is alert_lifecycle_events in insertion order, `usage` is usage_events. */
  datatype Repository = Repository(lifecycle: seq<Alert>, usage: seq<UsageEvent>)

  /** `suppressionSeconds` is the duplicate window; `quotas` the monthly limits that are set;
      `monthOf` numbers the month a time falls in. */
  datatype Config = Config(suppressionSeconds: int, quotas: map<string, int>, monthOf: int -> int)

  /** The clock readings one dispatch makes, in order. */
  datatype Clock = Clock(duplicateCheck: int, quotaCheck: int, record: int)

  datatype Result = MissingTenant | Duplicate(previous: Alert) | QuotaExceeded(suppressed: Alert) | Fired(alert: Alert)

  function RequireTenant(tenant: Option<string>): Option<string> {
    if tenant.None? then None
    else
      var trimmed := TrimEnd(TrimStart(tenant.value));
      if trimmed == "" then None else Some(trimmed)
  }

  function LatestByKey(lifecycle: seq<Alert>, key: string): Option<Alert> {
    if lifecycle == [] then None
    else
      var last := lifecycle[|lifecycle| - 1];
      if last.eventKey == Some(key) then Some(last) else LatestByKey(lifecycle[..|lifecycle| - 1], key)
  }

  /** The same alert under a different id. */
  predicate Repeats(candidate: Alert, existing: Alert) {
    && candidate.alertId != existing.alertId
    && candidate.eventKey.Some?
    && candidate.eventKey == existing.eventKey
    && candidate.tenantId == existing.tenantId
    && candidate.patternId == existing.patternId
    && candidate.severity == existing.severity
    && candidate.lifecycleState == existing.lifecycleState
    && candidate.simulationRunId == existing.simulationRunId
  }

  predicate ShouldSuppressDuplicate(candidate: Alert, existing: Alert, window: int, now: int) {
    Repeats(candidate, existing) && (now - existing.createdAt < 0 || now - existing.createdAt <= window)
  }

  function FindDuplicate(c: Config, repo: Repository, alert: Alert, now: int): Option<Alert> {
    if alert.eventKey.None? || c.suppressionSeconds <= 0 then None
    else
      var previous := LatestByKey(repo.lifecycle, alert.eventKey.value);
      if previous.Some? && ShouldSuppressDuplicate(alert, previous.value, c.suppressionSeconds, now)
      then previous else None
  }

  predicate QuotaApplies(alert: Alert) {
    alert.severity != Critical && (alert.lifecycleState == Provisional || alert.lifecycleState == Confirmed)
  }

  /** COUNT of the tenant's events of one kind since the start of the month `now` falls in. */
  function CountSinceMonthStart(c: Config, usage: seq<UsageEvent>, tenant: string, kind: UsageKind, now: int): nat {
    if usage == [] then 0
    else
      var last := usage[|usage| - 1];
      CountSinceMonthStart(c, usage[..|usage| - 1], tenant, kind, now)
      + if last.tenant == tenant && last.kind == kind && c.monthOf(last.recordedAt) >= c.monthOf(now) then 1 else 0
  }

  predicate QuotaReached(c: Config, repo: Repository, tenant: string, now: int) {
    && tenant in c.quotas
    && c.quotas[tenant] >= 0
    && CountSinceMonthStart(c, repo.usage, tenant, AlertFired, now) >= c.quotas[tenant]
  }

  function Record(repo: Repository, tenant: string, kind: UsageKind, at: int): Repository {
    repo.(usage := repo.usage + [UsageEvent(tenant, kind, at)])
  }

  function Persist(repo: Repository, alert: Alert): Repository {
    repo.(lifecycle := repo.lifecycle + [alert])
  }

  function Dispatch(c: Config, repo: Repository, alert: Alert, clock: Clock): (Repository, Result) {
    var tenant := RequireTenant(alert.tenantId);
    if tenant.None? then (repo, MissingTenant)
    else
      var normalized := alert.(tenantId := tenant);
      var previous := FindDuplicate(c, repo, normalized, clock.duplicateCheck);
      if previous.Some? then
        (Record(repo, tenant.value, SuppressedDuplicate, clock.record), Duplicate(previous.value))
      else if QuotaApplies(normalized) && QuotaReached(c, repo, tenant.value, clock.quotaCheck) then
        var suppressed := normalized.(lifecycleState := Suppressed, createdAt := clock.quotaCheck);
        (Record(Persist(repo, suppressed), tenant.value, SuppressedQuota, clock.record), QuotaExceeded(suppressed))
      else
        (Record(Persist(repo, normalized), tenant.value, AlertFired, clock.record), Fired(normalized))
  }

  class Dispatcher {
    const config: Config
    var lifecycle: seq<Alert>
    var usage: seq<UsageEvent>

    function Value(): Repository
      reads this
    {
      Repository(lifecycle, usage)
    }

    constructor (config: Config)
      ensures this.config == config && Value() == Repository([], [])
    {
      this.config := config;
      lifecycle, usage := [], [];
    }

    method RecordUsageEvent(tenant: string, kind: UsageKind, at: int)
      modifies this`usage
      ensures usage == old(usage) + [UsageEvent(tenant, kind, at)]
    {
      usage := usage + [UsageEvent(tenant, kind, at)];
    }

    method DispatchAlert(alert: Alert, clock: Clock) returns (result: Result)
      modifies this
      ensures (Value(), result) == Dispatch(config, old(Value()), alert, clock)
    {
      var tenant := RequireTenant(alert.tenantId);
      if tenant.None? {
        return MissingTenant;
      }
      var normalized := alert.(tenantId := tenant);
      var previous := FindDuplicate(config, Value(), normalized, clock.duplicateCheck);
      if previous.Some? {
        RecordUsageEvent(tenant.value, SuppressedDuplicate, clock.record);
        return Duplicate(previous.value);
      }
      if QuotaApplies(normalized) {
        if QuotaReached(config, Value(), tenant.value, clock.quotaCheck) {
          var suppressed := normalized.(lifecycleState := Suppressed, createdAt := clock.quotaCheck);
          lifecycle := lifecycle + [suppressed];
          RecordUsageEvent(tenant.value, SuppressedQuota, clock.record);
          return QuotaExceeded(suppressed);
        }
      }
      lifecycle := lifecycle + [normalized];
      RecordUsageEvent(tenant.value, AlertFired, clock.record);
      return Fired(normalized);
    }
  }

  // ---- one dispatch ----

  function KindOf(result: Result): Option<UsageKind> {
    match result
    case MissingTenant => None
    case Duplicate(_) => Some(SuppressedDuplicate)
    case QuotaExceeded(_) => Some(SuppressedQuota)
    case Fired(_) => Some(AlertFired)
  }

  /** `core` is the text without the whitespace around it. */
  ghost predicate IsTrimmed(text: string, core: string) {
    && (core != "" ==> !IsWhitespace(core[0]) && !IsWhitespace(core[|core| - 1]))
    && exists m, n :: 0 <= m <= n <= |text| && text[m..n] == core
         && (forall i :: 0 <= i < m ==> IsWhitespace(text[i])) && forall i :: n <= i < |text| ==> IsWhitespace(text[i])
  }

  lemma {:induction false} TrimStartIs(text: string) returns (m: nat)
    ensures m <= |text| && TrimStart(text) == text[m..]
    ensures forall i :: 0 <= i < m ==> IsWhitespace(text[i])
    ensures m < |text| ==> !IsWhitespace(text[m])
  {
    if text != "" && IsWhitespace(text[0]) {
      var k := TrimStartIs(text[1..]);
      m := k + 1;
    } else {
      m := 0;
    }
  }

  lemma {:induction false} TrimEndIs(text: string) returns (n: nat)
    ensures n <= |text| && TrimEnd(text) == text[..n]
    ensures forall i :: n <= i < |text| ==> IsWhitespace(text[i])
    ensures n > 0 ==> !IsWhitespace(text[n - 1])
  {
    if text != "" && IsWhitespace(text[|text| - 1]) {
      n := TrimEndIs(text[..|text| - 1]);
    } else {
      n := |text|;
      assert text[..n] == text;
    }
  }

  /** The tenant of an alert is its tenant text without surrounding whitespace; none and blank count as
      missing. */
  lemma TenantExactly(tenant: Option<string>)
    ensures RequireTenant(tenant).Some? ==>
      tenant.Some? && RequireTenant(tenant).value != "" && IsTrimmed(tenant.value, RequireTenant(tenant).value)
    ensures RequireTenant(tenant).None? <==>
      tenant.None? || forall i :: 0 <= i < |tenant.value| ==> IsWhitespace(tenant.value[i])
  {
    if tenant.Some? {
      var text := tenant.value;
      var m := TrimStartIs(text);
      var n := TrimEndIs(text[m..]);
      assert text[m..][..n] == text[m..m + n];
      assert forall i :: m + n <= i < |text| ==> text[i] == text[m..][i - m];
      if n > 0 {
        assert text[m + n - 1] == text[m..][n - 1];
        assert !IsWhitespace(text[m + n - 1]);
        assert m < |text|;
        assert RequireTenant(tenant) == Some(text[m..m + n]);
      }
    }
  }

  /** What one dispatch leaves in the tables and returns: a fired alert is stored as it came but for the
      trimmed tenant, one over quota is stored as suppressed at the time of the quota check, a duplicate
      stores nothing and returns the earlier record. Each records its one usage event. */
  lemma DispatchedExactly(c: Config, repo: Repository, alert: Alert, clock: Clock)
    ensures
      var (next, result) := Dispatch(c, repo, alert, clock);
      var tenant := RequireTenant(alert.tenantId);
      match result
      case MissingTenant => tenant.None? && next == repo
      case Duplicate(previous) =>
        && tenant.Some? && previous in repo.lifecycle && next.lifecycle == repo.lifecycle
        && next.usage == repo.usage + [UsageEvent(tenant.value, SuppressedDuplicate, clock.record)]
      case QuotaExceeded(stored) =>
        && tenant.Some? && next.lifecycle == repo.lifecycle + [stored]
        && stored == Alert(alert.alertId, alert.eventKey, tenant, alert.patternId, alert.severity, Suppressed,
                           alert.simulationRunId, clock.quotaCheck)
        && next.usage == repo.usage + [UsageEvent(tenant.value, SuppressedQuota, clock.record)]
      case Fired(stored) =>
        && tenant.Some? && next.lifecycle == repo.lifecycle + [stored]
        && stored == Alert(alert.alertId, alert.eventKey, tenant, alert.patternId, alert.severity, alert.lifecycleState,
                           alert.simulationRunId, alert.createdAt)
        && next.usage == repo.usage + [UsageEvent(tenant.value, AlertFired, clock.record)]
  {
    if alert.eventKey.Some? {
      LatestExists(repo.lifecycle, alert.eventKey.value);
    }
  }

  /** For UsageAccountsForRun: what one dispatch adds to the two tables. */
  lemma UsageTellsOutcome(c: Config, repo: Repository, alert: Alert, clock: Clock)
    ensures
      var (next, result) := Dispatch(c, repo, alert, clock);
      var tenant := RequireTenant(alert.tenantId);
      && (tenant.None? <==> KindOf(result).None?)
      && next.usage == repo.usage + (if tenant.None? then [] else [UsageEvent(tenant.value, KindOf(result).value, clock.record)])
      && (next.lifecycle == repo.lifecycle <==> result.MissingTenant? || result.Duplicate?)
  {
    var (next, result) := Dispatch(c, repo, alert, clock);
    assert |next.lifecycle| == |repo.lifecycle| + if result.Fired? || result.QuotaExceeded? then 1 else 0;
  }

  /** For SuppressedExactly and FiredRepeatsAreSpaced: the duplicate check against the latest record. */
  lemma PassedAlertIsOutsideWindow(c: Config, repo: Repository, alert: Alert, clock: Clock)
    requires c.suppressionSeconds > 0
    ensures
      var result := Dispatch(c, repo, alert, clock).1;
      var normalized := alert.(tenantId := RequireTenant(alert.tenantId));
      var latest := if alert.eventKey.Some? then LatestByKey(repo.lifecycle, alert.eventKey.value) else None;
      !result.MissingTenant? ==>
        (result.Duplicate? <==>
          latest.Some? && Repeats(normalized, latest.value)
          && clock.duplicateCheck <= latest.value.createdAt + c.suppressionSeconds)
  {
  }

  /** Only the latest record of the key is compared: another lifecycle state in between lets the
      same alert through inside the window. */
  lemma InterleavedRepeatIsNotSuppressed(key: string)
    ensures
      var c := Config(300, map[], t => 0);
      var first := Alert("a", Some(key), Some("t"), "p", High, Provisional, None, 0);
      var between := Alert("b", Some(key), Some("t"), "p", High, Confirmed, None, 1);
      var repeat := Alert("c", Some(key), Some("t"), "p", High, Provisional, None, 2);
      var one := Dispatch(c, Repository([], []), first, Clock(0, 0, 0)).0;
      var two := Dispatch(c, one, between, Clock(1, 1, 1)).0;
      && Repeats(repeat, first)
      && Dispatch(c, one, repeat, Clock(2, 2, 2)).1 == Duplicate(first)
      && Dispatch(c, two, repeat, Clock(2, 2, 2)).1 == Fired(repeat)
  {
    assert TrimStart("t") == "t" && TrimEnd("t") == "t";
    var c := Config(300, map[], t => 0);
    var first := Alert("a", Some(key), Some("t"), "p", High, Provisional, None, 0);
    var between := Alert("b", Some(key), Some("t"), "p", High, Confirmed, None, 1);
    var one := Dispatch(c, Repository([], []), first, Clock(0, 0, 0)).0;
    assert one.lifecycle == [first];
    var two := Dispatch(c, one, between, Clock(1, 1, 1)).0;
    assert two.lifecycle == [first, between];
  }

  // ---- runs of one serial worker ----

  datatype Job = Job(alert: Alert, clock: Clock)

  function RunRepo(c: Config, jobs: seq<Job>): Repository {
    if jobs == [] then Repository([], [])
    else
      var last := jobs[|jobs| - 1];
      Dispatch(c, RunRepo(c, jobs[..|jobs| - 1]), last.alert, last.clock).0
  }

  /** The clock never goes back, within a dispatch or from one to the next. */
  ghost predicate InOrder(jobs: seq<Job>) {
    && (forall i :: 0 <= i < |jobs| ==> jobs[i].clock.duplicateCheck <= jobs[i].clock.quotaCheck <= jobs[i].clock.record)
    && (forall i, j :: 0 <= i < j < |jobs| ==> jobs[i].clock.record <= jobs[j].clock.duplicateCheck)
  }

  ghost predicate Monotone(monthOf: int -> int) {
    forall s, t :: s <= t ==> monthOf(s) <= monthOf(t)
  }

  /** The last job fires an alert that the quota applies to, for this tenant and month. */
  predicate FiresUnderQuota(c: Config, repo: Repository, job: Job, tenant: string, month: int) {
    && Dispatch(c, repo, job.alert, job.clock).1.Fired?
    && RequireTenant(job.alert.tenantId) == Some(tenant)
    && job.alert.severity != Critical && job.alert.lifecycleState in {Provisional, Confirmed}
    && c.monthOf(job.clock.record) == month
  }

  function FiredInMonth(c: Config, jobs: seq<Job>, tenant: string, month: int): nat {
    if jobs == [] then 0
    else
      var prior := jobs[..|jobs| - 1];
      FiredInMonth(c, prior, tenant, month)
      + if FiresUnderQuota(c, RunRepo(c, prior), jobs[|jobs| - 1], tenant, month) then 1 else 0
  }

  lemma CountAfter(c: Config, usage: seq<UsageEvent>, e: UsageEvent, tenant: string, kind: UsageKind, now: int)
    ensures CountSinceMonthStart(c, usage + [e], tenant, kind, now)
         == CountSinceMonthStart(c, usage, tenant, kind, now)
          + if e.tenant == tenant && e.kind == kind && c.monthOf(e.recordedAt) >= c.monthOf(now) then 1 else 0
  {
    assert (usage + [e])[..|usage|] == usage;
  }

  /** The quota count covers at least the quota-relevant alerts fired in that month. */
  lemma {:induction false} CountCoversMonth(c: Config, jobs: seq<Job>, tenant: string, now: int)
    ensures FiredInMonth(c, jobs, tenant, c.monthOf(now))
         <= CountSinceMonthStart(c, RunRepo(c, jobs).usage, tenant, AlertFired, now)
  {
    if jobs != [] {
      var prior, last := jobs[..|jobs| - 1], jobs[|jobs| - 1];
      var repo := RunRepo(c, prior);
      CountCoversMonth(c, prior, tenant, now);
      UsageTellsOutcome(c, repo, last.alert, last.clock);
      var t := RequireTenant(last.alert.tenantId);
      if t.Some? {
        var kind := KindOf(Dispatch(c, repo, last.alert, last.clock).1).value;
        CountAfter(c, repo.usage, UsageEvent(t.value, kind, last.clock.record), tenant, AlertFired, now);
      } else {
        assert RunRepo(c, jobs).usage == repo.usage;
      }
    }
  }

  lemma {:induction false} NothingFiredInLaterMonth(c: Config, jobs: seq<Job>, tenant: string, month: int)
    requires forall i :: 0 <= i < |jobs| ==> c.monthOf(jobs[i].clock.record) < month
    ensures FiredInMonth(c, jobs, tenant, month) == 0
  {
    if jobs != [] {
      NothingFiredInLaterMonth(c, jobs[..|jobs| - 1], tenant, month);
    }
  }

  /** Whatever is dispatched, the alerts under quota that a tenant gets in one month never exceed its
      limit, even when a dispatch straddles the month's end. */
  lemma {:induction false} MonthlyQuotaHolds(c: Config, jobs: seq<Job>, tenant: string, month: int)
    requires Monotone(c.monthOf) && InOrder(jobs)
    requires tenant in c.quotas && c.quotas[tenant] >= 0
    ensures FiredInMonth(c, jobs, tenant, month) <= c.quotas[tenant]
  {
    if jobs != [] {
      var prior, last := jobs[..|jobs| - 1], jobs[|jobs| - 1];
      assert InOrder(prior);
      MonthlyQuotaHolds(c, prior, tenant, month);
      var repo := RunRepo(c, prior);
      if FiresUnderQuota(c, repo, last, tenant, month) {
        assert !QuotaReached(c, repo, tenant, last.clock.quotaCheck);
        if c.monthOf(last.clock.quotaCheck) == month {
          CountCoversMonth(c, prior, tenant, last.clock.quotaCheck);
        } else {
          forall i | 0 <= i < |prior| ensures c.monthOf(prior[i].clock.record) < month {
            assert prior[i].clock.record <= last.clock.quotaCheck <= last.clock.record;
          }
          NothingFiredInLaterMonth(c, prior, tenant, month);
        }
      }
    }
  }

  /** The last job fires any alert, Critical ones included, for this tenant and month. */
  predicate FiresInMonth(c: Config, repo: Repository, job: Job, tenant: string, month: int) {
    EndsWith(c, repo, job, tenant, AlertFired) && c.monthOf(job.clock.record) == month
  }

  function AllFiredInMonth(c: Config, jobs: seq<Job>, tenant: string, month: int): nat {
    if jobs == [] then 0
    else
      var prior := jobs[..|jobs| - 1];
      AllFiredInMonth(c, prior, tenant, month)
      + if FiresInMonth(c, RunRepo(c, prior), jobs[|jobs| - 1], tenant, month) then 1 else 0
  }

  lemma CountStep(c: Config, repo: Repository, job: Job, tenant: string, now: int)
    requires c.monthOf(job.clock.record) <= c.monthOf(now)
    ensures CountSinceMonthStart(c, Dispatch(c, repo, job.alert, job.clock).0.usage, tenant, AlertFired, now)
         == CountSinceMonthStart(c, repo.usage, tenant, AlertFired, now)
          + if FiresInMonth(c, repo, job, tenant, c.monthOf(now)) then 1 else 0
  {
    UsageTellsOutcome(c, repo, job.alert, job.clock);
    var t := RequireTenant(job.alert.tenantId);
    if t.Some? {
      var kind := KindOf(Dispatch(c, repo, job.alert, job.clock).1).value;
      CountAfter(c, repo.usage, UsageEvent(t.value, kind, job.clock.record), tenant, AlertFired, now);
    }
  }

  /** With no record from a later month, the count read from the table is exact. */
  lemma {:induction false} CountIsMonth(c: Config, jobs: seq<Job>, tenant: string, now: int)
    requires forall i :: 0 <= i < |jobs| ==> c.monthOf(jobs[i].clock.record) <= c.monthOf(now)
    ensures CountSinceMonthStart(c, RunRepo(c, jobs).usage, tenant, AlertFired, now)
         == AllFiredInMonth(c, jobs, tenant, c.monthOf(now))
  {
    if jobs != [] {
      var prior := jobs[..|jobs| - 1];
      CountIsMonth(c, prior, tenant, now);
      CountStep(c, RunRepo(c, prior), jobs[|jobs| - 1], tenant, now);
    }
  }

  /** Over every run, an alert is suppressed for quota exactly when it is no duplicate, the quota
      applies to it, and all alerts fired for the tenant this month reach a non-negative limit. */
  lemma OverQuotaExactly(c: Config, jobs: seq<Job>, job: Job, tenant: string)
    requires Monotone(c.monthOf) && InOrder(jobs + [job])
    requires RequireTenant(job.alert.tenantId) == Some(tenant)
    ensures
      var result := Dispatch(c, RunRepo(c, jobs), job.alert, job.clock).1;
      result.QuotaExceeded?
      <==> && !result.Duplicate?
           && job.alert.severity != Critical && job.alert.lifecycleState in {Provisional, Confirmed}
           && tenant in c.quotas && c.quotas[tenant] >= 0
           && AllFiredInMonth(c, jobs, tenant, c.monthOf(job.clock.quotaCheck)) >= c.quotas[tenant]
  {
    var all := jobs + [job];
    forall i | 0 <= i < |jobs| ensures c.monthOf(jobs[i].clock.record) <= c.monthOf(job.clock.quotaCheck) {
      assert all[i] == jobs[i] && all[|jobs|] == job;
      assert jobs[i].clock.record <= job.clock.quotaCheck;
    }
    CountIsMonth(c, jobs, tenant, job.clock.quotaCheck);
  }

  /** How many of the jobs ended with this outcome for this tenant. */
  function OutcomeCount(c: Config, jobs: seq<Job>, tenant: string, kind: UsageKind): nat {
    if jobs == [] then 0
    else
      var prior := jobs[..|jobs| - 1];
      OutcomeCount(c, prior, tenant, kind)
      + if EndsWith(c, RunRepo(c, prior), jobs[|jobs| - 1], tenant, kind) then 1 else 0
  }

  function UsageCount(usage: seq<UsageEvent>, tenant: string, kind: UsageKind): nat {
    if usage == [] then 0
    else
      var last := usage[|usage| - 1];
      UsageCount(usage[..|usage| - 1], tenant, kind) + if last.tenant == tenant && last.kind == kind then 1 else 0
  }

  lemma UsageCountAfter(usage: seq<UsageEvent>, e: UsageEvent, tenant: string, kind: UsageKind)
    ensures UsageCount(usage + [e], tenant, kind)
         == UsageCount(usage, tenant, kind) + if e.tenant == tenant && e.kind == kind then 1 else 0
  {
    assert (usage + [e])[..|usage|] == usage;
  }

  predicate EndsWith(c: Config, repo: Repository, job: Job, tenant: string, kind: UsageKind) {
    RequireTenant(job.alert.tenantId) == Some(tenant) && KindOf(Dispatch(c, repo, job.alert, job.clock).1) == Some(kind)
  }

  lemma UsageCountStep(c: Config, repo: Repository, job: Job, tenant: string, kind: UsageKind)
    ensures UsageCount(Dispatch(c, repo, job.alert, job.clock).0.usage, tenant, kind)
         == UsageCount(repo.usage, tenant, kind) + if EndsWith(c, repo, job, tenant, kind) then 1 else 0
  {
    UsageTellsOutcome(c, repo, job.alert, job.clock);
    var t := RequireTenant(job.alert.tenantId);
    if t.Some? {
      var result := Dispatch(c, repo, job.alert, job.clock).1;
      UsageCountAfter(repo.usage, UsageEvent(t.value, KindOf(result).value, job.clock.record), tenant, kind);
    }
  }

  /** Over every run the usage table holds, per tenant and kind, exactly one event per such outcome. */
  lemma {:induction false} UsageAccountsForRun(c: Config, jobs: seq<Job>, tenant: string, kind: UsageKind)
    ensures UsageCount(RunRepo(c, jobs).usage, tenant, kind) == OutcomeCount(c, jobs, tenant, kind)
  {
    if jobs != [] {
      var prior := jobs[..|jobs| - 1];
      UsageAccountsForRun(c, prior, tenant, kind);
      UsageCountStep(c, RunRepo(c, prior), jobs[|jobs| - 1], tenant, kind);
    }
  }

  // ---- repeats over a run ----

  /** A lifecycle record together with the time of its duplicate check and whether it fired. */
  datatype Dispatched = Dispatched(alert: Alert, checkedAt: int, fired: bool)

  /** The records a run adds to the lifecycle table, in order. */
  function Records(c: Config, jobs: seq<Job>): seq<Dispatched> {
    if jobs == [] then []
    else
      var prior, last := jobs[..|jobs| - 1], jobs[|jobs| - 1];
      Records(c, prior) +
      match Dispatch(c, RunRepo(c, prior), last.alert, last.clock).1
      case Fired(alert) => [Dispatched(alert, last.clock.duplicateCheck, true)]
      case QuotaExceeded(suppressed) => [Dispatched(suppressed, last.clock.duplicateCheck, false)]
      case MissingTenant => []
      case Duplicate(_) => []
  }

  /** Record p is the last one before q with q's event key. */
  ghost predicate JustBefore(records: seq<Dispatched>, p: nat, q: nat) {
    && p < q < |records|
    && records[q].alert.eventKey.Some?
    && records[p].alert.eventKey == records[q].alert.eventKey
    && forall r :: p < r < q ==> records[r].alert.eventKey != records[q].alert.eventKey
  }

  ghost predicate OutsideWindow(c: Config, records: seq<Dispatched>, p: nat, q: nat)
    requires p < |records| && q < |records|
  {
    Repeats(records[q].alert, records[p].alert) ==>
      records[q].checkedAt > records[p].alert.createdAt + c.suppressionSeconds
  }

  lemma {:induction false} RecordsAreLifecycle(c: Config, jobs: seq<Job>)
    ensures |Records(c, jobs)| == |RunRepo(c, jobs).lifecycle|
    ensures forall i :: 0 <= i < |Records(c, jobs)| ==> Records(c, jobs)[i].alert == RunRepo(c, jobs).lifecycle[i]
  {
    if jobs != [] {
      RecordsAreLifecycle(c, jobs[..|jobs| - 1]);
    }
  }

  /** p is the last record of the fired alert's key. */
  lemma FiredOutsideWindow(c: Config, repo: Repository, job: Job, p: nat)
    requires c.suppressionSeconds > 0
    requires Dispatch(c, repo, job.alert, job.clock).1.Fired? && job.alert.eventKey.Some?
    requires p < |repo.lifecycle| && repo.lifecycle[p].eventKey == job.alert.eventKey
    requires forall r :: p < r < |repo.lifecycle| ==> repo.lifecycle[r].eventKey != job.alert.eventKey
    ensures
      var fired := Dispatch(c, repo, job.alert, job.clock).1.alert;
      Repeats(fired, repo.lifecycle[p]) ==>
        job.clock.duplicateCheck > repo.lifecycle[p].createdAt + c.suppressionSeconds
  {
    LatestExists(repo.lifecycle, job.alert.eventKey.value);
    assert IsLatest(repo.lifecycle, job.alert.eventKey.value, p);
    PassedAlertIsOutsideWindow(c, repo, job.alert, job.clock);
  }

  /** Position p holds the last record of the key. */
  ghost predicate IsLatest(lifecycle: seq<Alert>, key: string, p: int) {
    && 0 <= p < |lifecycle| && lifecycle[p].eventKey == Some(key)
    && forall r :: p < r < |lifecycle| ==> lifecycle[r].eventKey != Some(key)
  }

  lemma {:induction false} LatestExists(lifecycle: seq<Alert>, key: string)
    ensures LatestByKey(lifecycle, key).Some? <==> exists p :: IsLatest(lifecycle, key, p)
    ensures forall p :: IsLatest(lifecycle, key, p) ==> LatestByKey(lifecycle, key) == Some(lifecycle[p])
  {
    if lifecycle != [] {
      var last := |lifecycle| - 1;
      var prior := lifecycle[..last];
      LatestExists(prior, key);
      if lifecycle[last].eventKey == Some(key) {
        assert IsLatest(lifecycle, key, last);
      } else {
        assert forall p :: IsLatest(lifecycle, key, p) <==> IsLatest(prior, key, p);
      }
    }
  }

  /** Some position holds the last record of the alert's key; it has another id, the same tenant, pattern,
      severity, lifecycle state and simulation run, and is at most the window old. */
  ghost predicate RepeatsLatest(c: Config, lifecycle: seq<Alert>, alert: Alert, tenant: string, now: int) {
    && c.suppressionSeconds > 0 && alert.eventKey.Some?
    && exists p :: IsLatest(lifecycle, alert.eventKey.value, p) &&
         var latest := lifecycle[p];
         && latest.alertId != alert.alertId && latest.tenantId == Some(tenant)
         && latest.patternId == alert.patternId && latest.severity == alert.severity
         && latest.lifecycleState == alert.lifecycleState && latest.simulationRunId == alert.simulationRunId
         && now <= latest.createdAt + c.suppressionSeconds
  }

  /** An alert with a tenant is suppressed as a duplicate exactly when it repeats, under another id and
      within the window, the last record of its key. */
  lemma SuppressedExactly(c: Config, repo: Repository, alert: Alert, clock: Clock, tenant: string)
    requires RequireTenant(alert.tenantId) == Some(tenant)
    ensures Dispatch(c, repo, alert, clock).1.Duplicate?
       <==> RepeatsLatest(c, repo.lifecycle, alert, tenant, clock.duplicateCheck)
  {
    if alert.eventKey.Some? {
      LatestExists(repo.lifecycle, alert.eventKey.value);
    }
  }

  lemma FiredRecord(c: Config, jobs: seq<Job>)
    requires jobs != []
    requires
      var prior, last := jobs[..|jobs| - 1], jobs[|jobs| - 1];
      Dispatch(c, RunRepo(c, prior), last.alert, last.clock).1.Fired?
    ensures
      var prior, last := jobs[..|jobs| - 1], jobs[|jobs| - 1];
      var fired := Dispatch(c, RunRepo(c, prior), last.alert, last.clock).1.alert;
      && fired.eventKey == last.alert.eventKey
      && Records(c, jobs) == Records(c, prior) + [Dispatched(fired, last.clock.duplicateCheck, true)]
  {
  }

  lemma RecordsGrow(c: Config, jobs: seq<Job>)
    requires jobs != []
    ensures
      var prior, last := jobs[..|jobs| - 1], jobs[|jobs| - 1];
      && Records(c, prior) <= Records(c, jobs)
      && |Records(c, jobs)| <= |Records(c, prior)| + 1
      && (|Records(c, jobs)| > |Records(c, prior)| && Records(c, jobs)[|Records(c, prior)|].fired ==>
            Dispatch(c, RunRepo(c, prior), last.alert, last.clock).1.Fired?)
  {
  }

  /** Over every run, a fired alert that repeats the record just before it under the same key was
      dispatched later than that record's creation time plus the window. */
  lemma {:induction false} FiredRepeatsAreSpaced(c: Config, jobs: seq<Job>, p: nat, q: nat)
    requires c.suppressionSeconds > 0
    requires JustBefore(Records(c, jobs), p, q) && Records(c, jobs)[q].fired
    ensures OutsideWindow(c, Records(c, jobs), p, q)
  {
    var prior, last := jobs[..|jobs| - 1], jobs[|jobs| - 1];
    var before, records := Records(c, prior), Records(c, jobs);
    RecordsGrow(c, jobs);
    assert forall i :: 0 <= i < |before| ==> records[i] == before[i];
    if q < |before| {
      FiredRepeatsAreSpaced(c, prior, p, q);
    } else {
      FiredRecord(c, jobs);
      RecordsAreLifecycle(c, prior);
      FiredOutsideWindow(c, RunRepo(c, prior), last, p);
    }
  }

  // ---- the alert-context cache ----

  class AlertContexts {
    var entries: map<string, Alert>

    constructor ()
      ensures entries == map[]
    {
      entries := map[];
    }

    /** Keeps the fresh entries, and if there are too many drops the oldest of them. */
    method Prune(now: int, ttl: int, maxEntries: nat)
      modifies this
      ensures IsPruning(old(entries), now - ttl, maxEntries, entries)
    {
      var cutoff := now - ttl;
      FreshKeys(entries, cutoff);
      entries := FreshEntries(entries, cutoff);
      ghost var kept := entries;
      if |entries| <= maxEntries {
        return;
      }
      var oldest := OldestFirst(entries);
      DistinctKeys(oldest, kept.Keys);
      RemoveFirst(oldest, |entries| - maxEntries);
      RemovedAreOldest(kept, oldest, |kept| - maxEntries);
    }

    method RemoveFirst(keys: seq<string>, n: nat)
      requires n <= |keys| && NoDuplicates(keys)
      requires forall i :: 0 <= i < |keys| ==> keys[i] in entries
      modifies this
      ensures entries == map k | k in old(entries) && k !in keys[..n] :: old(entries)[k]
      ensures |entries| == |old(entries)| - n
    {
      ghost var all := entries;
      for i := 0 to n
        invariant entries == map k | k in all && k !in keys[..i] :: all[k]
        invariant |entries| == |all| - i
      {
        assert keys[..i + 1] == keys[..i] + [keys[i]];
        assert keys[i] !in keys[..i];
        RemoveOne(entries, keys[i]);
        entries := entries - {keys[i]};
      }
    }
  }

  lemma RemoveOne(cache: map<string, Alert>, key: string)
    requires key in cache
    ensures |cache - {key}| == |cache| - 1
  {
    assert (cache - {key}).Keys == cache.Keys - {key};
  }

  function FreshEntries(cache: map<string, Alert>, cutoff: int): map<string, Alert> {
    map k | k in cache && cache[k].createdAt >= cutoff :: cache[k]
  }

  /** `after` has as many of the entries at or after the cutoff as fit, unchanged, and none that it lost
      is younger than one it kept. */
  ghost predicate IsPruning(before: map<string, Alert>, cutoff: int, maxEntries: nat, after: map<string, Alert>) {
    var recent := set k | k in before && before[k].createdAt >= cutoff;
    && (forall k :: k in after ==> k in recent && after[k] == before[k])
    && |after| == (if |recent| <= maxEntries then |recent| else maxEntries)
    && (forall lost, k :: lost in recent && lost !in after && k in after ==> before[lost].createdAt <= before[k].createdAt)
  }

  lemma FreshKeys(cache: map<string, Alert>, cutoff: int)
    ensures FreshEntries(cache, cutoff).Keys == set k | k in cache && cache[k].createdAt >= cutoff
    ensures |FreshEntries(cache, cutoff)| == |set k | k in cache && cache[k].createdAt >= cutoff|
  {
    assert FreshEntries(cache, cutoff).Keys == set k | k in cache && cache[k].createdAt >= cutoff;
  }

  ghost predicate SortedByAge(cache: map<string, Alert>, keys: seq<string>)
    requires forall i :: 0 <= i < |keys| ==> keys[i] in cache
  {
    forall i, j :: 0 <= i < j < |keys| ==> cache[keys[i]].createdAt <= cache[keys[j]].createdAt
  }

  /** The keys in some order of non-decreasing age stamp; ties fall in map order, which is not fixed. */
  method OldestFirst(cache: map<string, Alert>) returns (keys: seq<string>)
    ensures NoDuplicates(keys)
    ensures forall k :: k in keys <==> k in cache
    ensures forall i :: 0 <= i < |keys| ==> keys[i] in cache
    ensures SortedByAge(cache, keys)
  {
    keys := [];
    var rest := cache.Keys;
    while rest != {}
      invariant rest <= cache.Keys
      invariant NoDuplicates(keys)
      invariant forall k :: k in cache <==> k in keys || k in rest
      invariant forall k :: k in keys ==> k in cache && k !in rest
      invariant forall i :: 0 <= i < |keys| ==> keys[i] in cache
      invariant SortedByAge(cache, keys)
      decreases rest
    {
      var key :| key in rest;
      rest := rest - {key};
      var at := 0;
      while at < |keys| && cache[keys[at]].createdAt <= cache[key].createdAt
        invariant 0 <= at <= |keys|
        invariant forall i :: 0 <= i < at ==> cache[keys[i]].createdAt <= cache[key].createdAt
      {
        at := at + 1;
      }
      InsertAtIndex(keys, key, at);
      InsertKeepsDistinct(keys, key, at);
      InsertKeepsSorted(cache, keys, key, at);
      keys := InsertAt(keys, key, at);
    }
  }

  function InsertAt(keys: seq<string>, key: string, at: nat): seq<string>
    requires at <= |keys|
  {
    keys[..at] + [key] + keys[at..]
  }

  lemma InsertAtIndex(keys: seq<string>, key: string, at: nat)
    requires at <= |keys|
    ensures |InsertAt(keys, key, at)| == |keys| + 1
    ensures forall i :: 0 <= i <= |keys| ==>
      InsertAt(keys, key, at)[i] == if i < at then keys[i] else if i == at then key else keys[i - 1]
    ensures forall k :: k in InsertAt(keys, key, at) <==> k == key || k in keys
  {
    assert keys == keys[..at] + keys[at..];
  }

  lemma InsertKeepsDistinct(keys: seq<string>, key: string, at: nat)
    requires at <= |keys| && key !in keys && NoDuplicates(keys)
    ensures NoDuplicates(InsertAt(keys, key, at))
  {
    InsertAtIndex(keys, key, at);
  }

  lemma InsertKeepsSorted(cache: map<string, Alert>, keys: seq<string>, key: string, at: nat)
    requires at <= |keys| && key in cache
    requires forall i :: 0 <= i < |keys| ==> keys[i] in cache
    requires SortedByAge(cache, keys)
    requires forall i :: 0 <= i < at ==> cache[keys[i]].createdAt <= cache[key].createdAt
    requires at < |keys| ==> cache[key].createdAt <= cache[keys[at]].createdAt
    ensures forall i :: 0 <= i < |InsertAt(keys, key, at)| ==> InsertAt(keys, key, at)[i] in cache
    ensures SortedByAge(cache, InsertAt(keys, key, at))
  {
    InsertAtIndex(keys, key, at);
  }

  lemma {:induction false} DistinctKeys(keys: seq<string>, all: set<string>)
    requires NoDuplicates(keys) && forall k :: k in keys <==> k in all
    ensures |keys| == |all|
  {
    if keys == [] {
      assert all == {};
    } else {
      var last := keys[|keys| - 1];
      var prior := keys[..|keys| - 1];
      assert keys == prior + [last];
      DistinctKeys(prior, all - {last});
    }
  }

  lemma RemovedAreOldest(cache: map<string, Alert>, keys: seq<string>, n: nat)
    requires n <= |keys|
    requires forall i :: 0 <= i < |keys| ==> keys[i] in cache
    requires forall k :: k in cache ==> k in keys
    requires SortedByAge(cache, keys)
    ensures forall lost, k :: lost in keys[..n] && k in cache && k !in keys[..n] ==>
      cache[lost].createdAt <= cache[k].createdAt
  {
    forall lost, k | lost in keys[..n] && k in cache && k !in keys[..n]
      ensures cache[lost].createdAt <= cache[k].createdAt
    {
      var i :| 0 <= i < n && keys[i] == lost;
      var j :| 0 <= j < |keys| && keys[j] == k;
    }
  }

  /** Entries at or after the cutoff that fit survive; a pruning within the limit is unique. */
  lemma PruningWithinLimitIsUnique(before: map<string, Alert>, cutoff: int, maxEntries: nat, after: map<string, Alert>)
    requires IsPruning(before, cutoff, maxEntries, after) && |FreshEntries(before, cutoff)| <= maxEntries
    ensures after == FreshEntries(before, cutoff)
  {
    var kept := FreshEntries(before, cutoff);
    FreshKeys(before, cutoff);
    assert after.Keys <= kept.Keys;
    assert |kept.Keys - after.Keys| == |kept.Keys| - |after.Keys|;
    assert kept.Keys - after.Keys == {};
  }
}
