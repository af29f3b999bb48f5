/** Saving and restarting the finality service in consumer-group mode (apps/finality/src/main.rs). Entries
    are acknowledged as they are handled, but trackers are saved only now and then, so a restart goes
    back to the last save. */
module FinalityRestart {
  import opened Common
  import opened Finality
  import opened FinalityStep
  import opened FinalityRuns
  import opened FinalityIdle
  import opened FinalityStore
  import opened FinalityService

  /** `Save(done)` is a round of saving in which the chains of `done` were written; `Restart` loses
      what is in memory. */
  datatype Op = Deliver(input: Input) | Save(done: set<Chain>) | Restart

  /** `rows` is the table of saved trackers. */
  datatype World = World(service: ServiceState, rows: map<Chain, FinalityStateRow>)

  const EMPTY: World := World(ServiceState(map[], map[], []), map[])

  function EntryOf(w: World, input: Input): Entry {
    match input
    case Seen(e) => EventEntry(e, Get(w.rows, e.chain))
    case Noticed(n) => NoticeEntry(n)
  }

  function SavedRows(env: map<Chain, U64>, w: World, done: set<Chain>): map<Chain, FinalityStateRow> {
    w.rows + map c | c in w.service.trackers && c in done :: SaveRow(w.service.trackers[c], DefaultDepth(env, c))
  }

  function Next(env: map<Chain, U64>, w: World, op: Op): World {
    match op
    case Deliver(input) => w.(service := Handle(env, w.service, EntryOf(w, input)))
    case Save(done) => w.(rows := SavedRows(env, w, done))
    case Restart => w.(service := ServiceState(map[], map[], w.service.published))
  }

  function RunOps(env: map<Chain, U64>, w: World, ops: seq<Op>): World {
    if ops == [] then w else Next(env, RunOps(env, w, ops[..|ops| - 1]), ops[|ops| - 1])
  }

  // ---- every world the service can be in ----

  ghost predicate DepthsFit(env: map<Chain, U64>) {
    forall c :: DepthFits(DefaultDepth(env, c))
  }

  /** Trackers sit under their own chain and have the configured depth, in memory and in the table. */
  ghost predicate Configured(env: map<Chain, U64>, w: World) {
    && (forall c :: c in w.service.trackers ==>
          w.service.trackers[c].chain == c && w.service.trackers[c].defaultDepth == DefaultDepth(env, c))
    && (forall c :: c in w.rows ==> w.rows[c].confirmationDepth == DepthColumn(DefaultDepth(env, c)))
  }

  lemma NewTrackerConfigured(env: map<Chain, U64>, w: World, c: Chain)
    requires DepthsFit(env) && Configured(env, w)
    ensures
      var t := NewTracker(env, c, Get(w.rows, c));
      t.chain == c && t.defaultDepth == DefaultDepth(env, c)
  {
    DepthRoundTripsExactly(DefaultDepth(env, c));
  }

  lemma DeliverIsConfigured(env: map<Chain, U64>, w: World, input: Input)
    requires DepthsFit(env) && Configured(env, w)
    ensures Configured(env, Next(env, w, Deliver(input)))
  {
    match input
    case Seen(e) => NewTrackerConfigured(env, w, e.chain);
    case Noticed(n) =>
  }

  lemma NextIsConfigured(env: map<Chain, U64>, w: World, op: Op)
    requires DepthsFit(env) && Configured(env, w)
    ensures Configured(env, Next(env, w, op))
  {
    if op.Deliver? {
      DeliverIsConfigured(env, w, op.input);
    }
  }

  lemma {:induction false} RunIsConfigured(env: map<Chain, U64>, w: World, ops: seq<Op>)
    requires DepthsFit(env) && Configured(env, w)
    ensures Configured(env, RunOps(env, w, ops))
  {
    if ops != [] {
      RunIsConfigured(env, w, ops[..|ops| - 1]);
      NextIsConfigured(env, RunOps(env, w, ops[..|ops| - 1]), ops[|ops| - 1]);
    }
  }

  // ---- trackers stay valid across restarts ----

  ghost predicate SmallBlocks(ops: seq<Op>) {
    forall i :: 0 <= i < |ops| && ops[i].Deliver? && ops[i].input.Seen? ==> ops[i].input.event.blockNumber < TWO_TO_THE_63
  }

  ghost predicate Fits(t: Tracker) {
    Valid(t) && t.head < TWO_TO_THE_63
  }

  /** Trackers are valid with heads that fit, and so is what the rows load as. */
  ghost predicate Sound(w: World) {
    && (forall c :: c in w.service.trackers ==> w.service.trackers[c].chain == c && Fits(w.service.trackers[c]))
    && (forall c :: c in w.rows ==> SoundRow(w.rows[c], c))
  }

  lemma EventKeepsFit(t: Tracker, e: NormalizedEvent)
    requires Fits(t) && e.blockNumber < TWO_TO_THE_63
    ensures Fits(Observe(t, e).0)
  {
    if e.chain == t.chain {
      EventKeepsValid(t, e);
      KeptIsLargest(t, e);
      var next := NextBlocks(t, e);
      assert forall b :: b in next ==> b in t.blocks || b == e.blockNumber;
      assert NextHead(t, e) in next;
    }
  }

  lemma NoticeKeepsFit(t: Tracker, n: ReorgNotice)
    requires Fits(t)
    ensures Fits(ApplyNotice(t, n).0)
  {
    if n.chain == t.chain {
      NoticeKeepsValid(t, n);
      var kept := BlocksBelow(t.blocks, n.orphanedFromBlock);
      LargestNumberIs(kept);
      assert forall b :: b in kept ==> b in t.blocks;
    }
  }

  lemma FitsAtAnyDepth(t: Tracker, depth: U64)
    requires Fits(t)
    ensures Fits(t.(defaultDepth := depth))
  {
    var u := t.(defaultDepth := depth);
    assert u.blocks == t.blocks && u.states == t.states && u.head == t.head;
  }

  lemma SavedRowFits(t: Tracker, configured: U64)
    requires Fits(t)
    ensures LoadRow(SaveRow(t, configured), t.chain) == Some(t.(defaultDepth := ReloadedDepth(configured)))
  {
    ReloadExactly(t, configured);
  }

  ghost predicate SoundRow(row: FinalityStateRow, c: Chain) {
    LoadRow(row, c).Some? && Fits(LoadRow(row, c).value)
  }

  lemma SavedRowIsSound(t: Tracker, configured: U64)
    requires Fits(t)
    ensures SoundRow(SaveRow(t, configured), t.chain)
  {
    SavedRowFits(t, configured);
    FitsAtAnyDepth(t, ReloadedDepth(configured));
  }

  lemma FoundTrackerFits(env: map<Chain, U64>, w: World, c: Chain, stored: Option<FinalityStateRow>)
    requires Sound(w) && (stored == None || stored == Get(w.rows, c))
    ensures
      var t := TrackerFor(env, w.service, c, stored);
      t.chain == c && Fits(t)
  {
    NewTrackerChain(env, c, stored);
    assert c in w.rows ==> SoundRow(w.rows[c], c);
  }

  lemma EventKeepsSound(env: map<Chain, U64>, w: World, e: NormalizedEvent)
    requires Sound(w) && e.blockNumber < TWO_TO_THE_63
    ensures Sound(Next(env, w, Deliver(Seen(e))))
  {
    var t := TrackerFor(env, w.service, e.chain, Get(w.rows, e.chain));
    var next := Observe(t, e).0;
    FoundTrackerFits(env, w, e.chain, Get(w.rows, e.chain));
    assert Fits(next) && next.chain == e.chain by { EventKeepsFit(t, e); }
    assert Next(env, w, Deliver(Seen(e))).service.trackers == w.service.trackers[e.chain := next];
  }

  lemma NoticeKeepsSound(env: map<Chain, U64>, w: World, n: ReorgNotice)
    requires Sound(w)
    ensures Sound(Next(env, w, Deliver(Noticed(n))))
  {
    var t := TrackerFor(env, w.service, n.chain, None);
    var next := ApplyNotice(t, n).0;
    FoundTrackerFits(env, w, n.chain, None);
    assert Fits(next) && next.chain == n.chain by { NoticeKeepsFit(t, n); }
    assert Next(env, w, Deliver(Noticed(n))).service.trackers == w.service.trackers[n.chain := next];
  }

  lemma SaveKeepsSound(env: map<Chain, U64>, w: World, done: set<Chain>)
    requires Sound(w)
    ensures Sound(Next(env, w, Save(done)))
  {
    var rows := SavedRows(env, w, done);
    forall c | c in rows ensures SoundRow(rows[c], c) {
      if c in w.service.trackers && c in done {
        SavedRowIsSound(w.service.trackers[c], DefaultDepth(env, c));
      }
    }
  }

  lemma NextIsSound(env: map<Chain, U64>, w: World, op: Op)
    requires Sound(w)
    requires op.Deliver? && op.input.Seen? ==> op.input.event.blockNumber < TWO_TO_THE_63
    ensures Sound(Next(env, w, op))
  {
    match op
    case Deliver(Seen(e)) => EventKeepsSound(env, w, e);
    case Deliver(Noticed(n)) => NoticeKeepsSound(env, w, n);
    case Save(done) => SaveKeepsSound(env, w, done);
    case Restart =>
  }

  /** Over every run of deliveries, saves and restarts with block numbers below 2^63, every tracker is
      valid, restored ones included. */
  lemma {:induction false} ServiceTrackersAreValid(env: map<Chain, U64>, ops: seq<Op>)
    requires SmallBlocks(ops)
    ensures Sound(RunOps(env, EMPTY, ops))
  {
    if ops != [] {
      var last := |ops| - 1;
      assert SmallBlocks(ops[..last]);
      ServiceTrackersAreValid(env, ops[..last]);
      NextIsSound(env, RunOps(env, EMPTY, ops[..last]), ops[last]);
    }
  }

  // ---- between two saves ----

  /** The process stays up and the chain is not saved. */
  ghost predicate Unsaved(ops: seq<Op>, c: Chain) {
    forall i :: 0 <= i < |ops| ==> ops[i].Deliver? || (ops[i].Save? && c !in ops[i].done)
  }

  function Inputs(ops: seq<Op>): seq<Input> {
    if ops == [] then []
    else Inputs(ops[..|ops| - 1]) + if ops[|ops| - 1].Deliver? then [ops[|ops| - 1].input] else []
  }

  lemma RunFromLast(t: Tracker, inputs: seq<Input>, i: Input)
    ensures RunFrom(t, inputs + [i]) == Step(RunFrom(t, inputs), i)
  {
    assert (inputs + [i])[..|inputs|] == inputs;
  }

  lemma DeliveredTo(env: map<Chain, U64>, w: World, input: Input, c: Chain)
    requires c in w.service.trackers && w.service.trackers[c].chain == c
    ensures
      var next := Next(env, w, Deliver(input));
      c in next.service.trackers && next.service.trackers[c] == Step(w.service.trackers[c], input) && next.rows == w.rows
  {
  }

  /** A tracker in memory has run over everything delivered; the table keeps the chain's row. */
  lemma {:induction false} RunsOverDeliveries(env: map<Chain, U64>, w: World, ops: seq<Op>, c: Chain)
    requires c in w.service.trackers && w.service.trackers[c].chain == c && Unsaved(ops, c)
    ensures
      var last := RunOps(env, w, ops);
      && c in last.service.trackers && last.service.trackers[c].chain == c
      && last.service.trackers[c] == RunFrom(w.service.trackers[c], Inputs(ops))
      && Get(last.rows, c) == Get(w.rows, c)
  {
    if ops != [] {
      var prior, op := ops[..|ops| - 1], ops[|ops| - 1];
      assert Unsaved(prior, c);
      RunsOverDeliveries(env, w, prior, c);
      assert op == ops[|prior|];
      if op.Deliver? {
        DeliveredTo(env, RunOps(env, w, prior), op.input, c);
        RunFromLast(w.service.trackers[c], Inputs(prior), op.input);
      } else {
        assert Inputs(ops) == Inputs(prior);
      }
    }
  }

  // ---- restart ----

  /** What the first event of a chain finds. */
  function FirstTracker(env: map<Chain, U64>, w: World, c: Chain): Tracker {
    TrackerFor(env, w.service, c, Get(w.rows, c))
  }

  lemma SavedRowLoads(env: map<Chain, U64>, w: World, done: set<Chain>, c: Chain)
    requires DepthsFit(env) && Configured(env, w)
    requires c in w.service.trackers && c in done && w.service.trackers[c].head < TWO_TO_THE_63
    ensures
      var rows := Next(env, w, Save(done)).rows;
      c in rows && NewTracker(env, c, Some(rows[c])) == w.service.trackers[c]
  {
    ReloadExactly(w.service.trackers[c], DefaultDepth(env, c));
    DepthRoundTripsExactly(DefaultDepth(env, c));
  }

  lemma FoundAfterRestart(env: map<Chain, U64>, w: World, c: Chain, saved: Tracker)
    requires c in w.rows && NewTracker(env, c, Some(w.rows[c])) == saved
    ensures FirstTracker(env, Next(env, w, Restart), c) == saved
  {
  }

  lemma RestartGoesBack(env: map<Chain, U64>, w: World, done: set<Chain>, since: seq<Op>, c: Chain, saved: Tracker)
    requires DepthsFit(env) && Configured(env, w) && Unsaved(since, c) && c in done
    requires Get(w.service.trackers, c) == Some(saved) && saved.head < TWO_TO_THE_63
    ensures
      var crashed := RunOps(env, Next(env, w, Save(done)), since);
      && Get(crashed.service.trackers, c) == Some(RunFrom(saved, Inputs(since)))
      && FirstTracker(env, Next(env, crashed, Restart), c) == saved
  {
    var kept := Next(env, w, Save(done));
    SavedRowLoads(env, w, done, c);
    assert c in kept.rows && kept.service == w.service;
    RunsOverDeliveries(env, kept, since, c);
    FoundAfterRestart(env, RunOps(env, kept, since), c, saved);
  }

  /** For any reachable world, any save of the chain and anything after it short of another one: before
      the crash the tracker had run over everything delivered since; after it the first event finds
      the tracker as saved. The two hold the same states exactly when the deliveries published nothing,
      and they are the same, if nothing was rolled back, exactly when each delivery was idle. */
  lemma RestartLosesExactly(env: map<Chain, U64>, before: seq<Op>, done: set<Chain>, since: seq<Op>,
                            c: Chain, saved: Tracker)
    requires DepthsFit(env) && Unsaved(since, c) && c in done
    requires Get(RunOps(env, EMPTY, before).service.trackers, c) == Some(saved) && saved.head < TWO_TO_THE_63
    ensures
      var crashed := RunOps(env, Next(env, RunOps(env, EMPTY, before), Save(done)), since);
      var found := FirstTracker(env, Next(env, crashed, Restart), c);
      && found == saved
      && Get(crashed.service.trackers, c) == Some(RunFrom(saved, Inputs(since)))
      && (found.states == RunFrom(saved, Inputs(since)).states <==> Log(saved, Inputs(since)) == [])
      && (Valid(saved) && AllIdle(saved, Inputs(since)) ==> Get(crashed.service.trackers, c) == Some(found))
      && (Valid(saved) && NoRollback(saved, Inputs(since)) && Get(crashed.service.trackers, c) == Some(found) ==>
            AllIdle(saved, Inputs(since)))
  {
    var w := RunOps(env, EMPTY, before);
    RunIsConfigured(env, EMPTY, before);
    RestartGoesBack(env, w, done, since, c, saved);
    StatesStayExactlyWhenSilent(saved, Inputs(since));
    if Valid(saved) && AllIdle(saved, Inputs(since)) {
      IdleRunChangesNothing(saved, Inputs(since));
    }
    if Valid(saved) && NoRollback(saved, Inputs(since)) && RunFrom(saved, Inputs(since)) == saved {
      UnchangedRunIsIdle(saved, Inputs(since));
    }
  }

  /** A restarted service goes on from the tracker it finds, as if nothing since the save had been
      delivered, provided the chain's first entry is an event. */
  lemma RestartedRunContinues(env: map<Chain, U64>, w: World, e: NormalizedEvent, more: seq<Op>)
    requires DepthsFit(env) && Configured(env, w) && Unsaved(more, e.chain)
    ensures
      var first := Next(env, Next(env, w, Restart), Deliver(Seen(e)));
      var last := RunOps(env, first, more);
      var found := FirstTracker(env, Next(env, w, Restart), e.chain);
      && e.chain in last.service.trackers
      && last.service.trackers[e.chain] == RunFrom(Step(found, Seen(e)), Inputs(more))
  {
    var again := Next(env, w, Restart);
    NewTrackerConfigured(env, again, e.chain);
    var first := Next(env, again, Deliver(Seen(e)));
    RunsOverDeliveries(env, first, more, e.chain);
  }

  lemma NoticeOnFresh(chain: Chain, depth: U64, n: ReorgNotice, k: string)
    requires n.chain == chain
    ensures
      var t := ApplyNotice(Fresh(chain, depth), n).0;
      && t.blocks == map[] && EncodeBlocks(t.blocks) == map[]
      && Get(t.states, k) == if k in n.affectedEventKeys then Some(Retracted) else None
  {
    ApplyNoticeExactly(Fresh(chain, depth), n, k);
  }

  /** When the first entry is a notice the row is not looked for, and the next save overwrites it: of
      all that the table held for the chain, the keys listed in the notice are what is left. */
  lemma NoticeFirstForgetsTheRow(env: map<Chain, U64>, w: World, n: ReorgNotice, done: set<Chain>, k: string)
    requires n.chain !in w.service.trackers && n.chain in done
    ensures
      var rows := Next(env, Next(env, w, Deliver(Noticed(n))), Save(done)).rows;
      && n.chain in rows && rows[n.chain].blocks == map[]
      && Get(rows[n.chain].states, k) == if k in n.affectedEventKeys then Some(Retracted) else None
  {
    var depth := DefaultDepth(env, n.chain);
    var t := ApplyNotice(Fresh(n.chain, depth), n).0;
    var handled := Next(env, w, Deliver(Noticed(n)));
    assert handled.service.trackers == w.service.trackers[n.chain := t];
    assert Next(env, handled, Save(done)).rows[n.chain] == SaveRow(t, depth);
    NoticeOnFresh(n.chain, depth, n, k);
  }

  // ---- the engine after a restart ----

  ghost predicate NoRestart(ops: seq<Op>) {
    forall i :: 0 <= i < |ops| ==> !ops[i].Restart?
  }

  /** The entries that the deliveries amount to, each with the row the table holds at that time. */
  function Entries(env: map<Chain, U64>, w: World, ops: seq<Op>): seq<Entry> {
    if ops == [] then []
    else
      var prior, op := ops[..|ops| - 1], ops[|ops| - 1];
      Entries(env, w, prior) + if op.Deliver? then [EntryOf(RunOps(env, w, prior), op.input)] else []
  }

  ghost predicate SameTrackersAndEngine(s: ServiceState, r: ServiceState) {
    s.trackers == r.trackers && s.engine == r.engine
  }

  lemma HandleAlike(env: map<Chain, U64>, s: ServiceState, r: ServiceState, entry: Entry)
    requires SameTrackersAndEngine(s, r)
    ensures SameTrackersAndEngine(Handle(env, s, entry), Handle(env, r, entry))
  {
  }

  lemma AgreeAlike(s: ServiceState, r: ServiceState, c: Chain, k: string)
    requires SameTrackersAndEngine(s, r)
    ensures StateOf(s, c, k) == StateOf(r, c, k) && (Agree(s, c, k) <==> Agree(r, c, k))
  {
  }

  lemma RunServiceLast(env: map<Chain, U64>, entries: seq<Entry>, entry: Entry)
    ensures RunService(env, entries + [entry]) == Handle(env, RunService(env, entries), entry)
  {
    assert (entries + [entry])[..|entries|] == entries;
  }

  /** Trackers and engine of a restarted service are those of a new one fed with the same entries. */
  lemma {:induction false} RestartedServiceIsNew(env: map<Chain, U64>, w: World, ops: seq<Op>)
    requires NoRestart(ops) && w.service.trackers == map[] && w.service.engine == map[]
    ensures SameTrackersAndEngine(RunOps(env, w, ops).service, RunService(env, Entries(env, w, ops)))
  {
    if ops != [] {
      var prior, op := ops[..|ops| - 1], ops[|ops| - 1];
      var before := RunOps(env, w, prior);
      assert NoRestart(prior) && !op.Restart?;
      RestartedServiceIsNew(env, w, prior);
      if op.Deliver? {
        HandleAlike(env, before.service, RunService(env, Entries(env, w, prior)), EntryOf(before, op.input));
        RunServiceLast(env, Entries(env, w, prior), EntryOf(before, op.input));
      } else {
        assert Entries(env, w, ops) == Entries(env, w, prior);
      }
    }
  }

  /** At any time after a restart: on a key that one chain mentions since, engine and tracker agree
      exactly when the key was touched since or the tracker has no state for it. */
  lemma RestartedEngineAgreesExactly(env: map<Chain, U64>, w: World, ops: seq<Op>, c: Chain, k: string)
    requires NoRestart(ops) && BelongsTo(Entries(env, Next(env, w, Restart), ops), c, k)
    ensures
      var again := Next(env, w, Restart);
      var s, entries := RunOps(env, again, ops).service, Entries(env, again, ops);
      Agree(s, c, k) <==> EverTouched(env, entries, k) || StateOf(s, c, k) == None
  {
    var again := Next(env, w, Restart);
    RestartedServiceIsNew(env, again, ops);
    AgreeAlike(RunOps(env, again, ops).service, RunService(env, Entries(env, again, ops)), c, k);
    AgreeExactly(env, Entries(env, again, ops), c, k);
  }
}
