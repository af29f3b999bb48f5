/** Worker reconciliation in the stream supervisor (apps/indexer/src/stream_supervisor.rs).

    Database replies, the test-endpoint check and the configuration hash are inputs; starting and
    stopping a worker appends to a log, and each started worker gets a new serial number. */
module StreamSupervisor {
  import opened Common

  datatype StreamConfig = StreamConfig(
    id: string,
    profile: string,
    scopeKind: string,
    ownerTenant: Option<string>,
    deprecatedTestEndpoint: bool,
    listedTargets: Option<seq<string>>,
    settings: string)

  type Hasher = (StreamConfig, seq<string>) -> string

  /** What one configuration asks for. */
  datatype Verdict = Skip | Run(id: string, hash: string) | LookupFailed

  datatype Worker = Worker(configHash: string, serial: nat)

  datatype Action = Started(id: string, serial: nat) | Stopped(id: string, serial: nat)

  datatype State = State(workers: map<string, Worker>, log: seq<Action>, nextSerial: nat)

  predicate Skipped(cfg: StreamConfig, liveEnabled: bool) {
    (cfg.profile == "live" && !liveEnabled) || (cfg.profile == "test" && cfg.deprecatedTestEndpoint)
  }

  function TenantTargets(cfg: StreamConfig): Option<seq<string>> {
    if cfg.scopeKind == "tenant"
    then Some(if cfg.ownerTenant.Some? then [cfg.ownerTenant.value] else [])
    else cfg.listedTargets
  }

  function VerdictOn(cfg: StreamConfig, liveEnabled: bool, hasher: Hasher): Verdict {
    if Skipped(cfg, liveEnabled) then Skip
    else
      var targets := TenantTargets(cfg);
      if targets.None? then LookupFailed
      else if cfg.profile == "live" && targets.value == [] then Skip
      else Run(cfg.id, hasher(cfg, targets.value))
  }

  function Verdicts(configs: seq<StreamConfig>, liveEnabled: bool, hasher: Hasher): seq<Verdict> {
    seq(|configs|, i requires 0 <= i < |configs| => VerdictOn(configs[i], liveEnabled, hasher))
  }

  function Stop(st: State, id: string): State {
    if id in st.workers
    then st.(workers := st.workers - {id}, log := st.log + [Stopped(id, st.workers[id].serial)])
    else st
  }

  function Start(st: State, id: string, hash: string): State {
    State(st.workers[id := Worker(hash, st.nextSerial)], st.log + [Started(id, st.nextSerial)], st.nextSerial + 1)
  }

  function Apply(st: State, v: Verdict): State {
    match v
    case Skip => st
    case LookupFailed => st
    case Run(id, hash) =>
      if id in st.workers && st.workers[id].configHash == hash then st
      else Start(Stop(st, id), id, hash)
  }

  function ApplyAll(st: State, vs: seq<Verdict>): State {
    if vs == [] then st else Apply(ApplyAll(st, vs[..|vs| - 1]), vs[|vs| - 1])
  }

  function StopAll(st: State, ids: seq<string>): State {
    if ids == [] then st else Stop(StopAll(st, ids[..|ids| - 1]), ids[|ids| - 1])
  }

  function Desired(vs: seq<Verdict>): set<string> {
    set v | v in vs && v.Run? :: v.id
  }

  /** `order` lists the workers that are tracked but not desired, each once. */
  ghost predicate StaleOrder(st: State, vs: seq<Verdict>, order: seq<string>) {
    && NoDuplicates(order)
    && forall id :: id in order <==> id in st.workers && id !in Desired(vs)
  }

  /** A pass in which every lookup succeeded. */
  ghost function Pass(st: State, vs: seq<Verdict>, order: seq<string>): State {
    StopAll(ApplyAll(st, vs), order)
  }

  // ---- the supervisor object ----

  class StreamSupervisor {
    var workers: map<string, Worker>
    var log: seq<Action>
    var nextSerial: nat

    function Value(): State
      reads this
    {
      State(workers, log, nextSerial)
    }

    constructor ()
      ensures Value() == State(map[], [], 0)
    {
      workers, log, nextSerial := map[], [], 0;
    }

    /** Signals the worker and waits for it to finish. */
    method StopWorker(id: string)
      modifies this
      ensures Value() == Stop(old(Value()), id)
    {
      if id in workers {
        log := log + [Stopped(id, workers[id].serial)];
        workers := workers - {id};
      }
    }

    method SpawnWorker(id: string, hash: string)
      modifies this
      ensures Value() == Start(old(Value()), id, hash)
    {
      log := log + [Started(id, nextSerial)];
      workers := workers[id := Worker(hash, nextSerial)];
      nextSerial := nextSerial + 1;
    }

    /** `configs` is the database reply. An error leaves what was done so far in place. */
    method Reconcile(configs: Option<seq<StreamConfig>>, liveEnabled: bool, hasher: Hasher)
      returns (ok: bool, ghost order: seq<string>)
      modifies this
      ensures ok <==> configs.Some? && LookupFailed !in Verdicts(configs.value, liveEnabled, hasher)
      ensures ok ==>
        var vs := Verdicts(configs.value, liveEnabled, hasher);
        StaleOrder(ApplyAll(old(Value()), vs), vs, order) && Value() == Pass(old(Value()), vs, order)
      ensures !ok && configs.None? ==> Value() == old(Value())
      ensures !ok && configs.Some? ==>
        var vs := Verdicts(configs.value, liveEnabled, hasher);
        Value() == ApplyAll(old(Value()), vs[..Position(vs, LookupFailed)])
      ensures ok ==> Converged(workers, configs.value, liveEnabled, hasher)
      ensures ok <==> configs.Some? && forall i :: 0 <= i < |configs.value| ==> !LookupFails(configs.value[i], liveEnabled)
      ensures old(Valid(Value())) ==> Valid(Value())
      ensures old(Numbered(Value())) ==> Numbered(Value())
    {
      order := [];
      if configs.None? {
        return false, [];
      }
      var effective := configs.value;
      ghost var start := Value();
      ghost var vs := Verdicts(effective, liveEnabled, hasher);
      var desiredIds: seq<string> := [];
      for i := 0 to |effective|
        invariant LookupFailed !in vs[..i]
        invariant Value() == ApplyAll(old(Value()), vs[..i])
        invariant forall id :: id in desiredIds <==> id in Desired(vs[..i])
      {
        var cfg := effective[i];
        ghost var before := vs[..i];
        assert vs[..i + 1] == before + [vs[i]];
        assert vs[..i + 1][..i] == before;
        DesiredGrows(before, vs[i]);
        if Skipped(cfg, liveEnabled) {
          continue;
        }
        var targets := TenantTargets(cfg);
        if targets.None? {
          PositionIs(vs, LookupFailed, i);
          LookupFailsExactly(cfg, liveEnabled, hasher);
          if Valid(start) { PassKeepsValid(start, before, []); }
          if Numbered(start) { PassKeepsNumbered(start, before, []); }
          return false, [];
        }
        if cfg.profile == "live" && targets.value == [] {
          continue;
        }
        var hash := hasher(cfg, targets.value);
        desiredIds := desiredIds + [cfg.id];
        if cfg.id in workers && workers[cfg.id].configHash == hash {
          continue;
        }
        StopWorker(cfg.id);
        SpawnWorker(cfg.id, hash);
      }
      assert vs[..|effective|] == vs;
      order := DropStale(vs, desiredIds);
      if Valid(start) { PassKeepsValid(start, vs, order); }
      if Numbered(start) { PassKeepsNumbered(start, vs, order); }
      PassConverged(start, effective, liveEnabled, hasher, order);
      forall i | 0 <= i < |effective| ensures !LookupFails(effective[i], liveEnabled) {
        LookupFailsExactly(effective[i], liveEnabled, hasher);
        assert vs[i] in vs;
      }
      return true, order;
    }

    method DropStale(ghost vs: seq<Verdict>, desiredIds: seq<string>) returns (ghost order: seq<string>)
      requires forall id :: id in desiredIds <==> id in Desired(vs)
      modifies this
      ensures StaleOrder(old(Value()), vs, order)
      ensures Value() == StopAll(old(Value()), order)
    {
      var stale := set id | id in workers && id !in desiredIds;
      ghost var all := stale;
      order := [];
      while stale != {}
        invariant NoDuplicates(order)
        invariant forall id :: id in all <==> id in order || id in stale
        invariant forall id :: id in order ==> id !in stale
        invariant Value() == StopAll(old(Value()), order)
        decreases stale
      {
        var id :| id in stale;
        StopWorker(id);
        stale := stale - {id};
        assert (order + [id])[..|order|] == order;
        order := order + [id];
      }
    }
  }

  lemma DesiredGrows(vs: seq<Verdict>, v: Verdict)
    ensures Desired(vs + [v]) == Desired(vs) + (if v.Run? then {v.id} else {})
  {
    assert forall w :: w in vs + [v] <==> w in vs || w == v;
  }

  // ---- at most one running worker per stream, at every moment ----

  /** The workers that were started and not stopped yet. */
  function Running(log: seq<Action>): map<string, nat> {
    if log == [] then map[]
    else
      var before := Running(log[..|log| - 1]);
      match log[|log| - 1]
      case Started(id, serial) => before[id := serial]
      case Stopped(id, _) => before - {id}
  }

  /** A worker is started only when its stream has none, and only running workers are stopped. */
  ghost predicate Exclusive(log: seq<Action>) {
    forall i :: 0 <= i < |log| ==>
      match log[i]
      case Started(id, _) => id !in Running(log[..i])
      case Stopped(id, serial) => Get(Running(log[..i]), id) == Some(serial)
  }

  function Serials(workers: map<string, Worker>): map<string, nat> {
    map id | id in workers :: workers[id].serial
  }

  ghost predicate Valid(st: State) {
    Exclusive(st.log) && Running(st.log) == Serials(st.workers)
  }

  lemma ExclusiveGrows(log: seq<Action>, a: Action)
    requires Exclusive(log)
    requires match a
      case Started(id, _) => id !in Running(log)
      case Stopped(id, serial) => Get(Running(log), id) == Some(serial)
    ensures Exclusive(log + [a])
  {
    var next := log + [a];
    forall i | 0 <= i < |next| ensures
      match next[i]
      case Started(id, _) => id !in Running(next[..i])
      case Stopped(id, serial) => Get(Running(next[..i]), id) == Some(serial)
    {
      assert next[..i] == log[..i];
      assert log[..|log|] == log;
    }
  }

  lemma StopKeepsValid(st: State, id: string)
    requires Valid(st)
    ensures Valid(Stop(st, id)) && id !in Stop(st, id).workers
  {
    if id in st.workers {
      var a := Stopped(id, st.workers[id].serial);
      ExclusiveGrows(st.log, a);
      assert (st.log + [a])[..|st.log|] == st.log;
      assert Serials(st.workers - {id}) == Serials(st.workers) - {id};
    }
  }

  lemma StartKeepsValid(st: State, id: string, hash: string)
    requires Valid(st) && id !in st.workers
    ensures Valid(Start(st, id, hash))
  {
    var a := Started(id, st.nextSerial);
    ExclusiveGrows(st.log, a);
    assert (st.log + [a])[..|st.log|] == st.log;
    assert Serials(st.workers[id := Worker(hash, st.nextSerial)]) == Serials(st.workers)[id := st.nextSerial];
  }

  lemma ApplyKeepsValid(st: State, v: Verdict)
    requires Valid(st)
    ensures Valid(Apply(st, v))
  {
    if v.Run? {
      StopKeepsValid(st, v.id);
      StartKeepsValid(Stop(st, v.id), v.id, v.hash);
    }
  }

  /** Completed or cut short anywhere, a pass keeps the log exclusive; since this holds for every
      prefix of the log, no stream ever has two running workers. */
  lemma {:induction false} PassKeepsValid(st: State, vs: seq<Verdict>, order: seq<string>)
    requires Valid(st)
    ensures Valid(ApplyAll(st, vs)) && Valid(Pass(st, vs, order))
    decreases |vs|, |order|
  {
    if order != [] {
      var last := |order| - 1;
      PassKeepsValid(st, vs, order[..last]);
      StopKeepsValid(StopAll(ApplyAll(st, vs), order[..last]), order[last]);
    } else if vs != [] {
      var last := |vs| - 1;
      PassKeepsValid(st, vs[..last], []);
      ApplyKeepsValid(ApplyAll(st, vs[..last]), vs[last]);
    }
  }

  // ---- convergence ----

  /** The hash of the last configuration with this id. */
  function LastHash(vs: seq<Verdict>, id: string): Option<string> {
    if vs == [] then None
    else
      var v := vs[|vs| - 1];
      if v.Run? && v.id == id then Some(v.hash) else LastHash(vs[..|vs| - 1], id)
  }

  function HashOf(st: State, id: string): Option<string> {
    if id in st.workers then Some(st.workers[id].configHash) else None
  }

  lemma {:induction false} AppliedHashes(st: State, vs: seq<Verdict>, id: string)
    ensures HashOf(ApplyAll(st, vs), id) == if LastHash(vs, id).Some? then LastHash(vs, id) else HashOf(st, id)
    ensures LastHash(vs, id).Some? <==> id in Desired(vs)
  {
    if vs != [] {
      var prior, v := vs[..|vs| - 1], vs[|vs| - 1];
      AppliedHashes(st, prior, id);
      assert vs == prior + [v];
      DesiredGrows(prior, v);
    }
  }

  lemma {:induction false} StoppedWorkers(st: State, ids: seq<string>, id: string)
    ensures Get(StopAll(st, ids).workers, id) == if id in ids then None else Get(st.workers, id)
  {
    if ids != [] {
      StoppedWorkers(st, ids[..|ids| - 1], id);
      assert ids == ids[..|ids| - 1] + [ids[|ids| - 1]];
    }
  }

  /** After a completed pass the tracked workers are exactly the desired streams, each with the hash
      of the last configuration that names it. */
  lemma PassConverges(st: State, vs: seq<Verdict>, order: seq<string>, id: string)
    requires StaleOrder(ApplyAll(st, vs), vs, order)
    ensures HashOf(Pass(st, vs, order), id) == LastHash(vs, id)
    ensures id in Pass(st, vs, order).workers <==> id in Desired(vs)
  {
    AppliedHashes(st, vs, id);
    StoppedWorkers(ApplyAll(st, vs), order, id);
  }

  /** Every configuration for `id` has this hash. */
  ghost predicate OnlyHash(vs: seq<Verdict>, id: string, hash: string) {
    forall i :: 0 <= i < |vs| && vs[i].Run? && vs[i].id == id ==> vs[i].hash == hash
  }

  lemma {:induction false} UnchangedHashKeepsWorker(st: State, vs: seq<Verdict>, id: string)
    requires id in st.workers && OnlyHash(vs, id, st.workers[id].configHash)
    ensures Get(ApplyAll(st, vs).workers, id) == Some(st.workers[id])
  {
    if vs != [] {
      assert OnlyHash(vs[..|vs| - 1], id, st.workers[id].configHash);
      UnchangedHashKeepsWorker(st, vs[..|vs| - 1], id);
    }
  }

  /** A worker whose stream is still desired with an unchanged hash is never restarted. */
  lemma UnchangedWorkerSurvives(st: State, vs: seq<Verdict>, order: seq<string>, id: string)
    requires StaleOrder(ApplyAll(st, vs), vs, order)
    requires id in st.workers && id in Desired(vs) && OnlyHash(vs, id, st.workers[id].configHash)
    ensures Get(Pass(st, vs, order).workers, id) == Some(st.workers[id])
  {
    UnchangedHashKeepsWorker(st, vs, id);
    StoppedWorkers(ApplyAll(st, vs), order, id);
  }

  /** No stream id is configured with two different hashes; distinct ids are a special case. */
  ghost predicate Consistent(vs: seq<Verdict>) {
    forall i, j :: 0 <= i < |vs| && 0 <= j < |vs| && vs[i].Run? && vs[j].Run? && vs[i].id == vs[j].id
      ==> vs[i].hash == vs[j].hash
  }

  /** Every configuration is already served by a worker with its hash. */
  ghost predicate Settled(st: State, vs: seq<Verdict>) {
    forall i :: 0 <= i < |vs| && vs[i].Run? ==> HashOf(st, vs[i].id) == Some(vs[i].hash)
  }

  lemma {:induction false} LogOnlyGrows(st: State, vs: seq<Verdict>)
    ensures |ApplyAll(st, vs).log| >= |st.log|
    ensures |ApplyAll(st, vs).log| == |st.log| <==> Settled(st, vs)
    ensures Settled(st, vs) ==> ApplyAll(st, vs) == st
  {
    if vs != [] {
      var prior, v := vs[..|vs| - 1], vs[|vs| - 1];
      LogOnlyGrows(st, prior);
      assert Settled(st, vs) <==> Settled(st, prior) && (v.Run? ==> HashOf(st, v.id) == Some(v.hash)) by {
        if Settled(st, prior) && (v.Run? ==> HashOf(st, v.id) == Some(v.hash)) {
          forall i | 0 <= i < |vs| && vs[i].Run? ensures HashOf(st, vs[i].id) == Some(vs[i].hash) {
            if i < |prior| { assert prior[i] == vs[i]; }
          }
        }
        if Settled(st, vs) {
          forall i | 0 <= i < |prior| && prior[i].Run? ensures HashOf(st, prior[i].id) == Some(prior[i].hash) {
            assert vs[i] == prior[i];
          }
        }
      }
    }
  }

  lemma {:induction false} LastHashIsSome(vs: seq<Verdict>, i: nat)
    requires i < |vs| && vs[i].Run?
    ensures exists j :: 0 <= j < |vs| && vs[j].Run? && vs[j].id == vs[i].id && LastHash(vs, vs[i].id) == Some(vs[j].hash)
  {
    var last := |vs| - 1;
    if vs[last].Run? && vs[last].id == vs[i].id {
      assert LastHash(vs, vs[i].id) == Some(vs[last].hash);
    } else {
      LastHashIsSome(vs[..last], i);
      var j :| 0 <= j < last && vs[..last][j].Run? && vs[..last][j].id == vs[i].id
        && LastHash(vs[..last], vs[i].id) == Some(vs[..last][j].hash);
      assert vs[j] == vs[..last][j];
    }
  }

  /** A second pass on the same configurations starts and stops nothing exactly when no id is
      configured with two hashes; it then leaves everything as it was. */
  lemma SecondPassIsQuietExactly(st: State, vs: seq<Verdict>, order: seq<string>, again: seq<string>)
    requires StaleOrder(ApplyAll(st, vs), vs, order)
    requires
      var once := Pass(st, vs, order);
      StaleOrder(ApplyAll(once, vs), vs, again)
    ensures
      var once := Pass(st, vs, order);
      && (Pass(once, vs, again).log == once.log <==> Consistent(vs))
      && (Consistent(vs) ==> Pass(once, vs, again) == once)
  {
    var once := Pass(st, vs, order);
    SettledExactly(st, vs, order);
    LogOnlyGrows(once, vs);
    assert again == [] by {
      assert |again| == 0 || again[0] in again;
      forall id ensures id !in again {
        AppliedHashes(once, vs, id);
        PassConverges(st, vs, order, id);
      }
    }
  }

  lemma SettledExactly(st: State, vs: seq<Verdict>, order: seq<string>)
    requires StaleOrder(ApplyAll(st, vs), vs, order)
    ensures Settled(Pass(st, vs, order), vs) <==> Consistent(vs)
  {
    var once := Pass(st, vs, order);
    forall i | 0 <= i < |vs| && vs[i].Run? ensures HashOf(once, vs[i].id) == LastHash(vs, vs[i].id) {
      PassConverges(st, vs, order, vs[i].id);
    }
    if Settled(once, vs) {
      forall i, j | 0 <= i < |vs| && 0 <= j < |vs| && vs[i].Run? && vs[j].Run? && vs[i].id == vs[j].id
        ensures vs[i].hash == vs[j].hash
      {
        assert HashOf(once, vs[i].id) == Some(vs[i].hash) && HashOf(once, vs[j].id) == Some(vs[j].hash);
      }
    }
    if Consistent(vs) {
      forall i | 0 <= i < |vs| && vs[i].Run? ensures HashOf(once, vs[i].id) == Some(vs[i].hash) {
        LastHashIsSome(vs, i);
      }
    }
  }

  ghost predicate DistinctIds(configs: seq<StreamConfig>) {
    forall i, j :: 0 <= i < j < |configs| ==> configs[i].id != configs[j].id
  }

  /** With distinct ids, which the primary key of the table gives, a second pass is always quiet. */
  lemma DistinctIdsSettle(st: State, configs: seq<StreamConfig>, liveEnabled: bool, hasher: Hasher,
                          order: seq<string>, again: seq<string>)
    requires DistinctIds(configs)
    requires
      var vs := Verdicts(configs, liveEnabled, hasher);
      StaleOrder(ApplyAll(st, vs), vs, order) && StaleOrder(ApplyAll(Pass(st, vs, order), vs), vs, again)
    ensures
      var vs := Verdicts(configs, liveEnabled, hasher);
      Pass(Pass(st, vs, order), vs, again) == Pass(st, vs, order)
  {
    var vs := Verdicts(configs, liveEnabled, hasher);
    forall i, j | 0 <= i < |vs| && 0 <= j < |vs| && vs[i].Run? && vs[j].Run? && vs[i].id == vs[j].id
      ensures vs[i].hash == vs[j].hash
    {
      assert configs[i].id == vs[i].id && configs[j].id == vs[j].id;
    }
    SecondPassIsQuietExactly(st, vs, order, again);
  }

  // ---- which streams run, over the configurations ----

  /** The targets of a configuration: its owner for tenant scope, otherwise those the database lists;
      none known when that lookup failed. */
  ghost predicate HasTargets(cfg: StreamConfig, targets: seq<string>) {
    if cfg.scopeKind == "tenant" then
      (cfg.ownerTenant == None && targets == []) || (cfg.ownerTenant.Some? && targets == [cfg.ownerTenant.value])
    else cfg.listedTargets == Some(targets)
  }

  /** The configuration asks for a worker with these targets: it is not live while live streams are
      disabled, not a test one on a deprecated endpoint, and if live it has a target. */
  ghost predicate Wanted(cfg: StreamConfig, liveEnabled: bool, targets: seq<string>) {
    && !(cfg.profile == "live" && !liveEnabled)
    && !(cfg.profile == "test" && cfg.deprecatedTestEndpoint)
    && HasTargets(cfg, targets)
    && (cfg.profile == "live" ==> |targets| > 0)
  }

  /** Configuration i is the last one that asks for a worker under this id, with these targets. */
  ghost predicate LastWanted(configs: seq<StreamConfig>, liveEnabled: bool, id: string, i: int, targets: seq<string>) {
    && 0 <= i < |configs| && configs[i].id == id && Wanted(configs[i], liveEnabled, targets)
    && forall j, other :: i < j < |configs| && configs[j].id == id ==> !Wanted(configs[j], liveEnabled, other)
  }

  lemma VerdictExactly(cfg: StreamConfig, liveEnabled: bool, hasher: Hasher, targets: seq<string>)
    ensures Wanted(cfg, liveEnabled, targets) ==> VerdictOn(cfg, liveEnabled, hasher) == Run(cfg.id, hasher(cfg, targets))
    ensures VerdictOn(cfg, liveEnabled, hasher).Run? ==>
      VerdictOn(cfg, liveEnabled, hasher).id == cfg.id && exists ts :: Wanted(cfg, liveEnabled, ts)
  {
    if VerdictOn(cfg, liveEnabled, hasher).Run? {
      assert Wanted(cfg, liveEnabled, TenantTargets(cfg).value);
    }
  }

  /** The lookup of targets failed for a configuration that is not skipped before it. */
  ghost predicate LookupFails(cfg: StreamConfig, liveEnabled: bool) {
    && !(cfg.profile == "live" && !liveEnabled)
    && !(cfg.profile == "test" && cfg.deprecatedTestEndpoint)
    && cfg.scopeKind != "tenant" && cfg.listedTargets == None
  }

  lemma LookupFailsExactly(cfg: StreamConfig, liveEnabled: bool, hasher: Hasher)
    ensures VerdictOn(cfg, liveEnabled, hasher) == LookupFailed <==> LookupFails(cfg, liveEnabled)
  {
  }

  lemma {:induction false} LastHashIsLastWanted(configs: seq<StreamConfig>, liveEnabled: bool, hasher: Hasher, id: string)
    ensures forall i, targets :: LastWanted(configs, liveEnabled, id, i, targets) ==>
      LastHash(Verdicts(configs, liveEnabled, hasher), id) == Some(hasher(configs[i], targets))
    ensures LastHash(Verdicts(configs, liveEnabled, hasher), id).Some? ==>
      exists i, targets :: LastWanted(configs, liveEnabled, id, i, targets)
  {
    if configs != [] {
      var last := |configs| - 1;
      var prior, cfg := configs[..last], configs[last];
      var vs := Verdicts(configs, liveEnabled, hasher);
      assert vs[..last] == Verdicts(prior, liveEnabled, hasher);
      LastHashIsLastWanted(prior, liveEnabled, hasher, id);
      forall targets ensures Wanted(cfg, liveEnabled, targets) ==> vs[last] == Run(cfg.id, hasher(cfg, targets)) {
        VerdictExactly(cfg, liveEnabled, hasher, targets);
      }
      VerdictExactly(cfg, liveEnabled, hasher, []);
      forall i, targets | LastWanted(configs, liveEnabled, id, i, targets)
        ensures LastHash(vs, id) == Some(hasher(configs[i], targets))
      {
        if i < last {
          NotLastWanted(configs, liveEnabled, hasher, id, i, targets);
        }
      }
      if LastHash(vs, id).Some? {
        LastWantedExists(configs, liveEnabled, hasher, id);
      }
    }
  }

  lemma NotLastWanted(configs: seq<StreamConfig>, liveEnabled: bool, hasher: Hasher, id: string, i: int, targets: seq<string>)
    requires LastWanted(configs, liveEnabled, id, i, targets) && i < |configs| - 1
    ensures LastWanted(configs[..|configs| - 1], liveEnabled, id, i, targets)
    ensures
      var v := VerdictOn(configs[|configs| - 1], liveEnabled, hasher);
      !(v.Run? && v.id == id)
  {
    VerdictExactly(configs[|configs| - 1], liveEnabled, hasher, []);
  }

  lemma LastWantedExists(configs: seq<StreamConfig>, liveEnabled: bool, hasher: Hasher, id: string)
    requires configs != []
    requires LastHash(Verdicts(configs, liveEnabled, hasher), id).Some?
    requires
      var prior := configs[..|configs| - 1];
      LastHash(Verdicts(prior, liveEnabled, hasher), id).Some? ==>
        exists i, targets :: LastWanted(prior, liveEnabled, id, i, targets)
    ensures exists i, targets :: LastWanted(configs, liveEnabled, id, i, targets)
  {
    var last := |configs| - 1;
    var prior, cfg := configs[..last], configs[last];
    var vs := Verdicts(configs, liveEnabled, hasher);
    assert vs[..last] == Verdicts(prior, liveEnabled, hasher);
    VerdictExactly(cfg, liveEnabled, hasher, []);
    if vs[last].Run? && vs[last].id == id {
      var ts :| Wanted(cfg, liveEnabled, ts);
      assert LastWanted(configs, liveEnabled, id, last, ts);
    } else {
      var i, targets :| LastWanted(prior, liveEnabled, id, i, targets);
      forall other ensures cfg.id == id ==> !Wanted(cfg, liveEnabled, other) {
        VerdictExactly(cfg, liveEnabled, hasher, other);
      }
      assert LastWanted(configs, liveEnabled, id, i, targets);
    }
  }

  /** After a completed pass a stream has a worker exactly when some configuration asks for one, and its
      hash is that of the last such configuration with its targets. */
  ghost predicate Converged(workers: map<string, Worker>, configs: seq<StreamConfig>, liveEnabled: bool, hasher: Hasher) {
    && (forall id :: id in workers <==>
          exists i, targets :: LastWanted(configs, liveEnabled, id, i, targets))
    && (forall id, i, targets :: LastWanted(configs, liveEnabled, id, i, targets) ==>
          id in workers && workers[id].configHash == hasher(configs[i], targets))
  }

  lemma PassConverged(st: State, configs: seq<StreamConfig>, liveEnabled: bool, hasher: Hasher, order: seq<string>)
    requires
      var vs := Verdicts(configs, liveEnabled, hasher);
      StaleOrder(ApplyAll(st, vs), vs, order)
    ensures Converged(Pass(st, Verdicts(configs, liveEnabled, hasher), order).workers, configs, liveEnabled, hasher)
  {
    var vs := Verdicts(configs, liveEnabled, hasher);
    var after := Pass(st, vs, order);
    forall id ensures HashOf(after, id) == LastHash(vs, id) {
      PassConverges(st, vs, order, id);
    }
    forall id
      ensures id in after.workers <==> exists i, targets :: LastWanted(configs, liveEnabled, id, i, targets)
    {
      LastHashIsLastWanted(configs, liveEnabled, hasher, id);
      assert HashOf(after, id) == LastHash(vs, id);
    }
    forall id, i, targets | LastWanted(configs, liveEnabled, id, i, targets)
      ensures id in after.workers && after.workers[id].configHash == hasher(configs[i], targets)
    {
      LastHashIsLastWanted(configs, liveEnabled, hasher, id);
      assert HashOf(after, id) == LastHash(vs, id);
    }
  }

  // ---- serial numbers tell workers apart ----

  /** No two starts in the log have the same number, and all are below the next one. */
  ghost predicate Numbered(st: State) {
    && (forall i :: 0 <= i < |st.log| && st.log[i].Started? ==> st.log[i].serial < st.nextSerial)
    && forall i, j :: 0 <= i < j < |st.log| && st.log[i].Started? && st.log[j].Started? ==> st.log[i].serial < st.log[j].serial
  }

  lemma {:induction false} PassKeepsNumbered(st: State, vs: seq<Verdict>, order: seq<string>)
    requires Numbered(st)
    ensures Numbered(ApplyAll(st, vs)) && Numbered(Pass(st, vs, order))
    decreases |vs|, |order|
  {
    if order != [] {
      PassKeepsNumbered(st, vs, order[..|order| - 1]);
    } else if vs != [] {
      PassKeepsNumbered(st, vs[..|vs| - 1], []);
    }
  }
}
