/** The finality service's loop: one tracker per chain, one in-memory engine fed with notices and
    updates in the service's order (apps/finality/src/main.rs). Redis and Postgres calls are
    taken to succeed; a stored row is an input of the entry that first needs it. */
module FinalityService {
  import opened Common
  import opened Finality
  import opened FinalityStep
  import opened FinalityRuns
  import opened FinalityStore

  datatype Entry =
    | EventEntry(event: NormalizedEvent, stored: Option<FinalityStateRow>)
    | NoticeEntry(notice: ReorgNotice)

  datatype ServiceState = ServiceState(
    trackers: map<Chain, Tracker>,
    engine: States,
    published: seq<FinalityUpdate>)

  function DefaultDepth(env: map<Chain, U64>, chain: Chain): U64 {
    var builtIn := match chain
      case Base => 64
      case Offchain => 1
      case _ => 3;
    Max(if chain in env then env[chain] else builtIn, 1)
  }

  /** A missing or unreadable row gives a fresh tracker; the notice path never looks for a row. */
  function NewTracker(env: map<Chain, U64>, chain: Chain, stored: Option<FinalityStateRow>): Tracker {
    var initial := Fresh(chain, DefaultDepth(env, chain));
    match stored
    case None => initial
    case Some(row) =>
      var loaded := LoadRow(row, chain);
      if loaded.Some? then loaded.value else initial
  }

  function TrackerFor(env: map<Chain, U64>, s: ServiceState, chain: Chain, stored: Option<FinalityStateRow>): Tracker {
    if chain in s.trackers then s.trackers[chain] else NewTracker(env, chain, stored)
  }

  function EngineAfter(engine: States, notice: Option<ReorgNotice>, updates: seq<FinalityUpdate>): States {
    Replay(if notice.Some? then RetractKeys(engine, notice.value.affectedEventKeys) else engine, updates)
  }

  function Delivered(s: ServiceState, chain: Chain, next: Tracker,
                     notice: Option<ReorgNotice>, updates: seq<FinalityUpdate>): ServiceState {
    ServiceState(s.trackers[chain := next], EngineAfter(s.engine, notice, updates), s.published + updates)
  }

  function Handle(env: map<Chain, U64>, s: ServiceState, entry: Entry): ServiceState {
    match entry
    case EventEntry(e, stored) =>
      var (next, batch) := Observe(TrackerFor(env, s, e.chain, stored), e);
      Delivered(s, e.chain, next, batch.reorgNotice, batch.updates)
    case NoticeEntry(n) =>
      var (next, updates) := ApplyNotice(TrackerFor(env, s, n.chain, None), n);
      Delivered(s, n.chain, next, Some(n), updates)
  }

  function RunService(env: map<Chain, U64>, entries: seq<Entry>): ServiceState {
    if entries == [] then ServiceState(map[], map[], [])
    else Handle(env, RunService(env, entries[..|entries| - 1]), entries[|entries| - 1])
  }

  // ---- the service object ----

  class Service {
    const env: map<Chain, U64>
    const engine: InMemoryFinalityEngine
    var trackers: map<Chain, ChainFinalityTracker>
    var published: seq<FinalityUpdate>

    ghost predicate Valid()
      reads this, set c | c in trackers :: trackers[c]
    {
      forall c :: c in trackers ==> trackers[c].chain == c
    }

    ghost function Value(): ServiceState
      reads this, engine, set c | c in trackers :: trackers[c]
    {
      ServiceState(map c | c in trackers :: trackers[c].Value(), engine.states, published)
    }

    constructor (env: map<Chain, U64>)
      ensures Valid() && fresh(engine) && this.env == env
      ensures Value() == RunService(env, [])
    {
      this.env := env;
      engine := new InMemoryFinalityEngine();
      trackers := map[];
      published := [];
    }

    method EnsureTracker(chain: Chain, stored: Option<FinalityStateRow>)
      requires Valid()
      modifies this`trackers
      ensures Valid() && chain in trackers
      ensures chain in old(trackers) ==> trackers == old(trackers)
      ensures chain !in old(trackers) ==> fresh(trackers[chain]) && trackers == old(trackers)[chain := trackers[chain]]
      ensures
        var was := old(Value());
        Value() == was.(trackers := was.trackers[chain := TrackerFor(env, was, chain, stored)])
    {
      if chain !in trackers {
        ghost var was := Value();
        var initial := NewTracker(env, chain, stored);
        var tracker := new ChainFinalityTracker.Restore(initial);
        trackers := trackers[chain := tracker];
        assert Value().trackers == was.trackers[chain := initial];
      } else {
        assert Value().trackers == Value().trackers[chain := trackers[chain].Value()];
      }
    }

    method Publish(updates: seq<FinalityUpdate>)
      modifies this`published, engine
      ensures published == old(published) + updates
      ensures engine.states == Replay(old(engine.states), updates)
    {
      for i := 0 to |updates|
        invariant published == old(published) + updates[..i]
        invariant engine.states == Replay(old(engine.states), updates[..i])
      {
        assert updates[..i + 1][..i] == updates[..i];
        published := published + [updates[i]];
        engine.ApplyUpdate(updates[i]);
      }
      assert updates[..|updates|] == updates;
    }

    /** The engine hears of the notice first and of the updates after it. */
    method Deliver(notice: Option<ReorgNotice>, updates: seq<FinalityUpdate>)
      requires Valid()
      modifies this`published, engine
      ensures Valid()
      ensures
        var was := old(Value());
        Value() == ServiceState(was.trackers, EngineAfter(was.engine, notice, updates), was.published + updates)
    {
      ghost var was := Value();
      if notice.Some? {
        engine.HandleReorgNotice(notice.value);
      }
      Publish(updates);
      assert Value().trackers == was.trackers;
    }

    /** One tracker handles an event; the other trackers, the engine and the log stay as they are. */
    method ObserveOn(event: NormalizedEvent) returns (batch: FinalityBatch)
      requires Valid() && event.chain in trackers
      modifies trackers[event.chain]
      ensures Valid()
      ensures
        var was := old(Value());
        var (next, reported) := Observe(was.trackers[event.chain], event);
        Value() == was.(trackers := was.trackers[event.chain := next]) && batch == reported
    {
      ghost var was := Value();
      batch := trackers[event.chain].ObserveEvent(event);
      OthersKept(was, event.chain);
    }

    method ApplyOn(notice: ReorgNotice) returns (updates: seq<FinalityUpdate>)
      requires Valid() && notice.chain in trackers
      modifies trackers[notice.chain]
      ensures Valid()
      ensures
        var was := old(Value());
        var (next, reported) := ApplyNotice(was.trackers[notice.chain], notice);
        Value() == was.(trackers := was.trackers[notice.chain := next]) && updates == reported
    {
      ghost var was := Value();
      updates := trackers[notice.chain].ApplyReorgNotice(notice);
      OthersKept(was, notice.chain);
    }

    lemma OthersKept(was: ServiceState, chain: Chain)
      requires chain in trackers && trackers.Keys == was.trackers.Keys
      requires forall c :: c in trackers && c != chain ==> trackers[c].Value() == was.trackers[c]
      ensures Value().trackers == was.trackers[chain := trackers[chain].Value()]
    {
    }

    method HandleEvent(event: NormalizedEvent, stored: Option<FinalityStateRow>)
      requires Valid()
      modifies this, engine, set c | c in trackers :: trackers[c]
      ensures Valid()
      ensures Value() == Handle(env, old(Value()), EventEntry(event, stored))
    {
      ghost var was := Value();
      EnsureTracker(event.chain, stored);
      ghost var ready := Value();
      var batch := ObserveOn(event);
      ghost var moved := Value();
      Deliver(batch.reorgNotice, batch.updates);
      EventHandled(env, was, event, stored, ready, moved, Value(), batch);
    }

    method HandleNotice(notice: ReorgNotice)
      requires Valid()
      modifies this, engine, set c | c in trackers :: trackers[c]
      ensures Valid()
      ensures Value() == Handle(env, old(Value()), NoticeEntry(notice))
    {
      ghost var was := Value();
      EnsureTracker(notice.chain, None);
      ghost var ready := Value();
      var updates := ApplyOn(notice);
      ghost var moved := Value();
      Deliver(Some(notice), updates);
      NoticeHandled(env, was, notice, ready, moved, Value(), updates);
    }
  }

  /** The three stages of the loop body make up `Handle`. */
  lemma EventHandled(env: map<Chain, U64>, was: ServiceState, e: NormalizedEvent, stored: Option<FinalityStateRow>,
                     ready: ServiceState, moved: ServiceState, done: ServiceState, batch: FinalityBatch)
    requires ready == was.(trackers := was.trackers[e.chain := TrackerFor(env, was, e.chain, stored)])
    requires
      var (next, reported) := Observe(ready.trackers[e.chain], e);
      moved == ready.(trackers := ready.trackers[e.chain := next]) && batch == reported
    requires done == ServiceState(moved.trackers, EngineAfter(moved.engine, batch.reorgNotice, batch.updates),
                                  moved.published + batch.updates)
    ensures done == Handle(env, was, EventEntry(e, stored))
  {
  }

  lemma NoticeHandled(env: map<Chain, U64>, was: ServiceState, n: ReorgNotice,
                      ready: ServiceState, moved: ServiceState, done: ServiceState, updates: seq<FinalityUpdate>)
    requires ready == was.(trackers := was.trackers[n.chain := TrackerFor(env, was, n.chain, None)])
    requires
      var (next, reported) := ApplyNotice(ready.trackers[n.chain], n);
      moved == ready.(trackers := ready.trackers[n.chain := next]) && updates == reported
    requires done == ServiceState(moved.trackers, EngineAfter(moved.engine, Some(n), updates), moved.published + updates)
    ensures done == Handle(env, was, NoticeEntry(n))
  {
  }

  // ---- the tracker a chain starts with ----

  /** The configured depth of a chain, at least 1; without one 64 for Base, 1 off chain, 3 elsewhere. */
  lemma DefaultDepthExactly(env: map<Chain, U64>, chain: Chain)
    ensures chain in env && env[chain] > 0 ==> DefaultDepth(env, chain) == env[chain]
    ensures chain in env && env[chain] == 0 ==> DefaultDepth(env, chain) == 1
    ensures chain !in env ==>
      DefaultDepth(env, chain) == if chain == Base then 64 else if chain == Offchain then 1 else 3
  {
  }

  /** A chain seen for the first time starts empty at its configured depth, unless an event finds a row
      that loads. */
  lemma FirstTrackerExactly(env: map<Chain, U64>, s: ServiceState, chain: Chain, stored: Option<FinalityStateRow>)
    requires chain !in s.trackers
    ensures
      var t := TrackerFor(env, s, chain, stored);
      if stored.Some? && LoadRow(stored.value, chain).Some? then Some(t) == LoadRow(stored.value, chain)
      else t == Tracker(chain, DefaultDepth(env, chain), 0, map[], map[])
  {
  }

  function InputOf(entry: Entry): Input {
    match entry
    case EventEntry(e, _) => Seen(e)
    case NoticeEntry(n) => Noticed(n)
  }

  function InputsOf(entries: seq<Entry>): seq<Input> {
    seq(|entries|, i requires 0 <= i < |entries| => InputOf(entries[i]))
  }

  /** With one chain started fresh, the service is the run of that chain's tracker and publishes exactly
      its log, in order. */
  lemma {:induction false} SingleChainIsTrackerRun(env: map<Chain, U64>, entries: seq<Entry>, c: Chain)
    requires forall i :: 0 <= i < |entries| ==> ChainOf(entries[i]) == c
    requires StartsFresh(entries, c)
    ensures
      var s, first := RunService(env, entries), Fresh(c, DefaultDepth(env, c));
      && s.published == Log(first, InputsOf(entries))
      && (if entries == [] then c !in s.trackers
          else c in s.trackers && s.trackers[c] == RunFrom(first, InputsOf(entries)))
  {
    if entries != [] {
      var last := |entries| - 1;
      var prior, entry := entries[..last], entries[last];
      SingleChainIsTrackerRun(env, prior, c);
      assert InputsOf(entries)[..last] == InputsOf(prior);
      assert InputsOf(entries)[last] == InputOf(entry);
      var before := RunService(env, prior);
      var t := RunFrom(Fresh(c, DefaultDepth(env, c)), InputsOf(prior));
      SingleChainStep(env, before, entry, t);
    }
  }

  lemma SingleChainStep(env: map<Chain, U64>, s: ServiceState, entry: Entry, t: Tracker)
    requires entry.EventEntry? ==> entry.stored == None
    requires t == TrackerFor(env, s, ChainOf(entry), None)
    ensures
      var next := Handle(env, s, entry);
      && next.published == s.published + Emits(t, InputOf(entry))
      && next.trackers == s.trackers[ChainOf(entry) := Step(t, InputOf(entry))]
  {
  }

  // ---- lookups in a mirror ----

  lemma {:induction false} LookupAfterReplay(states: States, log: seq<FinalityUpdate>, k: string)
    ensures Get(Replay(states, log), k)
         == if Word(log, k) == [] then Get(states, k) else LastState(Word(log, k))
  {
    if log != [] {
      LookupAfterReplay(states, log[..|log| - 1], k);
    }
  }

  lemma {:induction false} LookupAfterRetract(states: States, keys: seq<string>, k: string)
    ensures Get(RetractKeys(states, keys), k) == if k in keys then Some(Retracted) else Get(states, k)
  {
    if keys != [] {
      LookupAfterRetract(states, keys[..|keys| - 1], k);
      assert keys == keys[..|keys| - 1] + [keys[|keys| - 1]];
    }
  }

  lemma LookupAfterEngine(engine: States, notice: Option<ReorgNotice>, updates: seq<FinalityUpdate>, k: string)
    ensures Get(EngineAfter(engine, notice, updates), k)
         == if Word(updates, k) != [] then LastState(Word(updates, k))
            else if notice.Some? && k in notice.value.affectedEventKeys then Some(Retracted)
            else Get(engine, k)
  {
    if notice.Some? {
      LookupAfterRetract(engine, notice.value.affectedEventKeys, k);
    }
    LookupAfterReplay(if notice.Some? then RetractKeys(engine, notice.value.affectedEventKeys) else engine, updates, k);
  }

  // ---- one key through one step ----

  /** A touched key looks the same in the mirror as in the tracker; an untouched key is left alone by both. */
  lemma EventMirrors(t: Tracker, e: NormalizedEvent, engine: States, k: string)
    ensures
      var (next, batch) := Observe(t, e);
      var mirrored := Get(EngineAfter(engine, batch.reorgNotice, batch.updates), k);
      if Touches(batch.reorgNotice, batch.updates, k) then mirrored == Get(next.states, k) && mirrored.Some?
      else mirrored == Get(engine, k) && Get(next.states, k) == Get(t.states, k)
  {
    var (next, batch) := Observe(t, e);
    LookupAfterEngine(engine, batch.reorgNotice, batch.updates, k);
    if e.chain == t.chain {
      ObserveExactly(t, e, k);
      AffectedExactly(t.blocks, e.blockNumber, k);
    }
  }

  lemma NoticeMirrors(t: Tracker, n: ReorgNotice, engine: States, k: string)
    requires n.chain == t.chain
    ensures
      var (next, updates) := ApplyNotice(t, n);
      var mirrored := Get(EngineAfter(engine, Some(n), updates), k);
      if Touches(Some(n), updates, k) then mirrored == Get(next.states, k) && mirrored.Some?
      else mirrored == Get(engine, k) && Get(next.states, k) == Get(t.states, k)
  {
    LookupAfterEngine(engine, Some(n), ApplyNotice(t, n).1, k);
    ApplyNoticeExactly(t, n, k);
  }

  ghost predicate RowNames(row: FinalityStateRow, k: string) {
    k in row.states || exists s :: s in row.blocks && k in row.blocks[s].eventKeys
  }

  lemma NewTrackerChain(env: map<Chain, U64>, chain: Chain, stored: Option<FinalityStateRow>)
    ensures NewTracker(env, chain, stored).chain == chain
  {
  }

  lemma NewTrackerUnheard(env: map<Chain, U64>, chain: Chain, stored: Option<FinalityStateRow>, k: string)
    requires stored.Some? ==> !RowNames(stored.value, k)
    ensures Unheard(NewTracker(env, chain, stored), k)
  {
    var t := NewTracker(env, chain, stored);
    if stored.Some? && LoadRow(stored.value, chain).Some? {
      var doc := stored.value.blocks;
      forall b | b in t.blocks ensures k !in t.blocks[b].eventKeys {
        var s :| s in doc && NumberOf(s) == b && t.blocks[b] == doc[s];
      }
    }
  }

  // ---- whole runs ----

  function ChainOf(entry: Entry): Chain {
    match entry
    case EventEntry(e, _) => e.chain
    case NoticeEntry(n) => n.chain
  }

  /** The entry mentions the key, as its own event, in a notice or in the row it restores. */
  ghost predicate Names(entry: Entry, k: string) {
    match entry
    case EventEntry(e, stored) => e.eventKey == k || (stored.Some? && RowNames(stored.value, k))
    case NoticeEntry(n) => k in n.affectedEventKeys
  }

  /** Only entries of chain `c` mention `k`. */
  ghost predicate BelongsTo(entries: seq<Entry>, c: Chain, k: string) {
    forall i :: 0 <= i < |entries| && ChainOf(entries[i]) != c ==> !Names(entries[i], k)
  }

  /** No tracker of chain `c` is restored from a row. */
  ghost predicate StartsFresh(entries: seq<Entry>, c: Chain) {
    forall i :: 0 <= i < |entries| && entries[i].EventEntry? && entries[i].event.chain == c ==> entries[i].stored == None
  }

  function StateOf(s: ServiceState, c: Chain, k: string): Option<LifecycleState> {
    if c in s.trackers then Get(s.trackers[c].states, k) else None
  }

  ghost predicate MirrorsKey(s: ServiceState, c: Chain, k: string, startsFresh: bool) {
    && (forall d :: d in s.trackers ==> s.trackers[d].chain == d)
    && (forall d :: d in s.trackers && d != c ==> Unheard(s.trackers[d], k))
    && (k in s.engine ==> Get(s.engine, k) == StateOf(s, c, k))
    && (startsFresh ==> Get(s.engine, k) == StateOf(s, c, k) == LastState(Word(s.published, k)))
  }

  /** One delivery keeps the mirror: a tracker of another chain says nothing about the key, and the
      tracker of chain `c` moves the key to the last state it reports. */
  lemma DeliveryKeepsMirror(s: ServiceState, d: Chain, next: Tracker, notice: Option<ReorgNotice>,
                            updates: seq<FinalityUpdate>, c: Chain, k: string, startsFresh: bool)
    requires MirrorsKey(s, c, k, startsFresh) && next.chain == d
    requires d != c ==> Unheard(next, k) && !Touches(notice, updates, k)
    requires d == c && Touches(notice, updates, k) ==>
      Get(next.states, k) == Get(EngineAfter(s.engine, notice, updates), k)
    requires d == c && !Touches(notice, updates, k) && c in s.trackers ==>
      Get(next.states, k) == Get(s.trackers[c].states, k)
    requires d == c && startsFresh ==>
      Get(next.states, k) == if Word(updates, k) == [] then StateOf(s, c, k) else LastState(Word(updates, k))
    requires d == c && c !in s.trackers ==> k !in s.engine
    ensures MirrorsKey(Delivered(s, d, next, notice, updates), c, k, startsFresh)
  {
    var after := Delivered(s, d, next, notice, updates);
    LookupAfterEngine(s.engine, notice, updates, k);
    WordConcat(s.published, updates, k);
    assert LastState(Word(after.published, k))
        == if Word(updates, k) == [] then LastState(Word(s.published, k)) else LastState(Word(updates, k));
    if d != c {
      assert Get(after.engine, k) == Get(s.engine, k);
      assert StateOf(after, c, k) == StateOf(s, c, k);
    } else {
      assert StateOf(after, c, k) == Get(next.states, k);
    }
  }

  lemma EventKeepsMirror(env: map<Chain, U64>, s: ServiceState, e: NormalizedEvent, stored: Option<FinalityStateRow>,
                         c: Chain, k: string, startsFresh: bool)
    requires MirrorsKey(s, c, k, startsFresh)
    requires e.chain != c ==> !Names(EventEntry(e, stored), k)
    requires startsFresh && e.chain == c ==> stored == None
    ensures MirrorsKey(Handle(env, s, EventEntry(e, stored)), c, k, startsFresh)
  {
    var t := TrackerFor(env, s, e.chain, stored);
    var (next, batch) := Observe(t, e);
    assert t.chain == e.chain by { NewTrackerChain(env, e.chain, stored); }
    EventMirrors(t, e, s.engine, k);
    EventLastWord(t, e, k);
    if e.chain != c {
      assert Unheard(t, k) by { if e.chain !in s.trackers { NewTrackerUnheard(env, e.chain, stored, k); } }
      EventKeepsUnheard(t, e, k);
    }
    DeliveryKeepsMirror(s, e.chain, next, batch.reorgNotice, batch.updates, c, k, startsFresh);
  }

  lemma NoticeKeepsMirror(env: map<Chain, U64>, s: ServiceState, n: ReorgNotice, c: Chain, k: string, startsFresh: bool)
    requires MirrorsKey(s, c, k, startsFresh)
    requires n.chain != c ==> k !in n.affectedEventKeys
    ensures MirrorsKey(Handle(env, s, NoticeEntry(n)), c, k, startsFresh)
  {
    var t := TrackerFor(env, s, n.chain, None);
    var (next, updates) := ApplyNotice(t, n);
    assert t.chain == n.chain by { NewTrackerChain(env, n.chain, None); }
    NoticeMirrors(t, n, s.engine, k);
    NoticeLastWord(t, n, k);
    if n.chain != c {
      assert Unheard(t, k) by { if n.chain !in s.trackers { NewTrackerUnheard(env, n.chain, None, k); } }
      NoticeKeepsUnheard(t, n, k);
    }
    DeliveryKeepsMirror(s, n.chain, next, Some(n), updates, c, k, startsFresh);
  }

  lemma HandleKeepsMirror(env: map<Chain, U64>, s: ServiceState, entry: Entry, c: Chain, k: string, startsFresh: bool)
    requires MirrorsKey(s, c, k, startsFresh)
    requires ChainOf(entry) != c ==> !Names(entry, k)
    requires startsFresh && entry.EventEntry? && entry.event.chain == c ==> entry.stored == None
    ensures MirrorsKey(Handle(env, s, entry), c, k, startsFresh)
  {
    match entry
    case EventEntry(e, stored) => EventKeepsMirror(env, s, e, stored, c, k, startsFresh);
    case NoticeEntry(n) => NoticeKeepsMirror(env, s, n, c, k, startsFresh);
  }

  /** The last update of a key names its new state; no update means no change. */
  lemma EventLastWord(t: Tracker, e: NormalizedEvent, k: string)
    ensures
      var (next, batch) := Observe(t, e);
      var w := Word(batch.updates, k);
      Get(next.states, k) == if w == [] then Get(t.states, k) else LastState(w)
  {
    if e.chain == t.chain {
      ObserveExactly(t, e, k);
    }
  }

  lemma NoticeLastWord(t: Tracker, n: ReorgNotice, k: string)
    requires n.chain == t.chain
    ensures
      var (next, updates) := ApplyNotice(t, n);
      var w := Word(updates, k);
      Get(next.states, k) == if w == [] then Get(t.states, k) else LastState(w)
  {
    ApplyNoticeExactly(t, n, k);
  }

  lemma {:induction false} RunKeepsMirror(env: map<Chain, U64>, entries: seq<Entry>, c: Chain, k: string)
    requires BelongsTo(entries, c, k)
    ensures MirrorsKey(RunService(env, entries), c, k, StartsFresh(entries, c))
  {
    if entries == [] {
    } else {
      var last := |entries| - 1;
      var prior := entries[..last];
      assert BelongsTo(prior, c, k);
      assert StartsFresh(entries, c) ==> StartsFresh(prior, c);
      RunKeepsMirror(env, prior, c, k);
      HandleKeepsMirror(env, RunService(env, prior), entries[last], c, k, StartsFresh(entries, c));
    }
  }

  /** For a key only one chain mentions, after any run: the engine agrees with that chain's
      tracker wherever it holds the key, and when the tracker was not restored from a row, the
      engine, the tracker and the last published update agree completely. */
  lemma EngineMirrorsTracker(env: map<Chain, U64>, entries: seq<Entry>, c: Chain, k: string)
    requires BelongsTo(entries, c, k)
    ensures
      var s := RunService(env, entries);
      && (k in s.engine ==> Get(s.engine, k) == StateOf(s, c, k))
      && (StartsFresh(entries, c) ==>
            Get(s.engine, k) == StateOf(s, c, k) == Get(Replay(map[], s.published), k))
  {
    RunKeepsMirror(env, entries, c, k);
    LookupAfterReplay(map[], RunService(env, entries).published, k);
  }

  /** With one chain the three maps are equal. */
  lemma SingleChainMapsAreEqual(env: map<Chain, U64>, entries: seq<Entry>, c: Chain)
    requires entries != []
    requires forall i :: 0 <= i < |entries| ==> ChainOf(entries[i]) == c
    requires StartsFresh(entries, c)
    ensures
      var s := RunService(env, entries);
      && c in s.trackers
      && s.engine == s.trackers[c].states == Replay(map[], s.published)
  {
    var s := RunService(env, entries);
    assert ChainOf(entries[|entries| - 1]) == c;
    forall k ensures Get(s.engine, k) == Get(s.trackers[c].states, k) == Get(Replay(map[], s.published), k) {
      EngineMirrorsTracker(env, entries, c, k);
    }
    SameLookups(s.engine, s.trackers[c].states);
    SameLookups(s.engine, Replay(map[], s.published));
  }

  /** With several chains and disjoint keys the engine is the union of the trackers' states. */
  lemma EngineIsUnion(env: map<Chain, U64>, entries: seq<Entry>, owner: string -> Chain)
    requires forall i, k :: 0 <= i < |entries| && Names(entries[i], k) ==> owner(k) == ChainOf(entries[i])
    requires forall c :: StartsFresh(entries, c)
    ensures
      var s := RunService(env, entries);
      && (forall k :: Get(s.engine, k) == StateOf(s, owner(k), k))
      && (forall c, k :: c in s.trackers && k in s.trackers[c].states ==> c == owner(k))
  {
    var s := RunService(env, entries);
    forall k ensures Get(s.engine, k) == StateOf(s, owner(k), k)
                  && forall c :: c in s.trackers && k in s.trackers[c].states ==> c == owner(k) {
      assert BelongsTo(entries, owner(k), k);
      RunKeepsMirror(env, entries, owner(k), k);
    }
  }

  // ---- what the engine holds, restored trackers included ----

  /** The entry publishes an update for the key or carries a notice that lists it. */
  ghost predicate EntryTouches(env: map<Chain, U64>, s: ServiceState, entry: Entry, k: string) {
    match entry
    case EventEntry(e, stored) =>
      var batch := Observe(TrackerFor(env, s, e.chain, stored), e).1;
      Touches(batch.reorgNotice, batch.updates, k)
    case NoticeEntry(n) => Touches(Some(n), ApplyNotice(TrackerFor(env, s, n.chain, None), n).1, k)
  }

  /** Some entry of the run touched the key. */
  ghost predicate EverTouched(env: map<Chain, U64>, entries: seq<Entry>, k: string) {
    entries != [] &&
    var prior, last := entries[..|entries| - 1], entries[|entries| - 1];
    EverTouched(env, prior, k) || EntryTouches(env, RunService(env, prior), last, k)
  }

  lemma EngineAfterEntry(env: map<Chain, U64>, s: ServiceState, entry: Entry, k: string)
    ensures k in Handle(env, s, entry).engine <==> k in s.engine || EntryTouches(env, s, entry, k)
  {
    match entry
    case EventEntry(e, stored) =>
      var batch := Observe(TrackerFor(env, s, e.chain, stored), e).1;
      LookupAfterEngine(s.engine, batch.reorgNotice, batch.updates, k);
    case NoticeEntry(n) =>
      LookupAfterEngine(s.engine, Some(n), ApplyNotice(TrackerFor(env, s, n.chain, None), n).1, k);
  }

  /** Over every run, with any trackers restored, the engine holds exactly the keys that were touched. */
  lemma {:induction false} EngineHoldsExactly(env: map<Chain, U64>, entries: seq<Entry>, k: string)
    ensures k in RunService(env, entries).engine <==> EverTouched(env, entries, k)
  {
    if entries != [] {
      var last := |entries| - 1;
      EngineHoldsExactly(env, entries[..last], k);
      EngineAfterEntry(env, RunService(env, entries[..last]), entries[last], k);
    }
  }

  /** Over every run, with any trackers restored: on a key that one chain mentions, engine and tracker
      agree exactly when some entry touched the key or the tracker has no state for it. */
  lemma AgreeExactly(env: map<Chain, U64>, entries: seq<Entry>, c: Chain, k: string)
    requires BelongsTo(entries, c, k)
    ensures Agree(RunService(env, entries), c, k)
       <==> EverTouched(env, entries, k) || StateOf(RunService(env, entries), c, k) == None
  {
    EngineHoldsExactly(env, entries, k);
    EngineMirrorsTracker(env, entries, c, k);
  }

  /** With disjoint keys the engine is the union of the trackers exactly when every key with a state was
      touched: what it lacks are the states that were restored and not touched since. */
  lemma EngineIsUnionExactly(env: map<Chain, U64>, entries: seq<Entry>, owner: string -> Chain)
    requires forall i, k :: 0 <= i < |entries| && Names(entries[i], k) ==> owner(k) == ChainOf(entries[i])
    ensures
      var s := RunService(env, entries);
      (forall k :: Agree(s, owner(k), k))
      <==> (forall k :: StateOf(s, owner(k), k).Some? ==> EverTouched(env, entries, k))
  {
    forall k ensures Agree(RunService(env, entries), owner(k), k)
                <==> EverTouched(env, entries, k) || StateOf(RunService(env, entries), owner(k), k) == None {
      assert BelongsTo(entries, owner(k), k);
      AgreeExactly(env, entries, owner(k), k);
    }
  }

  // ---- which entries break the mirror ----

  ghost predicate WellKeyed(s: ServiceState) {
    forall d :: d in s.trackers ==> s.trackers[d].chain == d
  }

  lemma {:induction false} RunIsWellKeyed(env: map<Chain, U64>, entries: seq<Entry>)
    ensures WellKeyed(RunService(env, entries))
  {
    if entries != [] {
      var last := |entries| - 1;
      var before := RunService(env, entries[..last]);
      RunIsWellKeyed(env, entries[..last]);
      var stored := if entries[last].EventEntry? then entries[last].stored else None;
      NewTrackerChain(env, ChainOf(entries[last]), stored);
    }
  }

  /** Engine and tracker of chain `c` hold the same for `k`. */
  ghost predicate Agree(s: ServiceState, c: Chain, k: string) {
    Get(s.engine, k) == StateOf(s, c, k)
  }

  /** An entry of the chain itself always keeps the agreement. */
  lemma OwnEntryKeepsAgreement(env: map<Chain, U64>, s: ServiceState, entry: Entry, c: Chain, k: string)
    requires WellKeyed(s) && Agree(s, c, k) && ChainOf(entry) == c && c in s.trackers
    ensures Agree(Handle(env, s, entry), c, k)
  {
    match entry
    case EventEntry(e, stored) => EventMirrors(s.trackers[c], e, s.engine, k);
    case NoticeEntry(n) => NoticeMirrors(s.trackers[c], n, s.engine, k);
  }

  /** A notice of another chain keeps it exactly when it does not list the key or the owner has it
      retracted already. */
  lemma ForeignNoticeKeepsAgreementExactly(env: map<Chain, U64>, s: ServiceState, n: ReorgNotice, c: Chain, k: string)
    requires WellKeyed(s) && Agree(s, c, k) && n.chain != c
    ensures Agree(Handle(env, s, NoticeEntry(n)), c, k)
       <==> k !in n.affectedEventKeys || StateOf(s, c, k) == Some(Retracted)
  {
    var t := TrackerFor(env, s, n.chain, None);
    NewTrackerChain(env, n.chain, None);
    LookupAfterEngine(s.engine, Some(n), ApplyNotice(t, n).1, k);
    ApplyNoticeExactly(t, n, k);
  }

  /** The event changes the tracker's state of the key, or names the key in a notice. */
  ghost predicate Stirs(t: Tracker, e: NormalizedEvent, k: string) {
    AfterSweep(t, e, k) != Get(t.states, k) || (Conflicts(t, e) && LiveFrom(t.blocks, e.blockNumber, k))
  }

  lemma StirsExactly(t: Tracker, e: NormalizedEvent, k: string)
    requires e.chain == t.chain
    ensures Stirs(t, e, k) <==> Touches(Observe(t, e).1.reorgNotice, Observe(t, e).1.updates, k)
  {
    ObserveExactly(t, e, k);
    AffectedExactly(t.blocks, e.blockNumber, k);
  }

  /** An event of another chain keeps it exactly when that chain's tracker leaves the key alone or moves
      it to the state that the owner already has. */
  lemma ForeignEventKeepsAgreementExactly(env: map<Chain, U64>, s: ServiceState, e: NormalizedEvent,
                                          stored: Option<FinalityStateRow>, c: Chain, k: string)
    requires WellKeyed(s) && Agree(s, c, k) && e.chain != c
    ensures
      var t := TrackerFor(env, s, e.chain, stored);
      Agree(Handle(env, s, EventEntry(e, stored)), c, k)
      <==> !Stirs(t, e, k) || AfterSweep(t, e, k) == StateOf(s, c, k)
  {
    var t := TrackerFor(env, s, e.chain, stored);
    assert t.chain == e.chain by { NewTrackerChain(env, e.chain, stored); }
    StirsExactly(t, e, k);
    EventMirrors(t, e, s.engine, k);
    ObserveExactly(t, e, k);
  }

  /** A foreign notice that does break it, in the smallest run: it lists another chain's key, so the
      engine has the key retracted while the owning tracker still has it provisional. */
  lemma SharedKeyBreaksTheMirror(key: string)
    ensures
      var s := RunService(map[], [EventEntry(NormalizedEvent(Ethereum, key, 100, None, false, 0), None),
                                  NoticeEntry(ReorgNotice(Base, 100, 99, [key]))]);
      && StateOf(s, Ethereum, key) == Some(Provisional)
      && Get(s.engine, key) == Some(Retracted)
  {
    var e := NormalizedEvent(Ethereum, key, 100, None, false, 0);
    var n := ReorgNotice(Base, 100, 99, [key]);
    var entries := [EventEntry(e, None), NoticeEntry(n)];
    var env: map<Chain, U64> := map[];
    var none := RunService(env, []);
    assert [EventEntry(e, None)][..0] == [] && entries[..1] == [EventEntry(e, None)];
    assert RunService(env, [EventEntry(e, None)]) == Handle(env, none, EventEntry(e, None));
    var first := Handle(env, none, EventEntry(e, None));
    assert RunService(env, entries) == Handle(env, first, NoticeEntry(n));
    FirstEventOfEmptyTracker(Fresh(Ethereum, 3), e);
    ForeignNoticeRetracts(env, first, n, key);
  }

  lemma ForeignNoticeRetracts(env: map<Chain, U64>, s: ServiceState, n: ReorgNotice, key: string)
    requires key in n.affectedEventKeys && n.chain == Base && Base !in s.trackers
    ensures
      var next := Handle(env, s, NoticeEntry(n));
      && Get(next.engine, key) == Some(Retracted)
      && StateOf(next, Ethereum, key) == StateOf(s, Ethereum, key)
  {
    var t := Fresh(Base, DefaultDepth(env, Base));
    LookupAfterEngine(s.engine, Some(n), ApplyNotice(t, n).1, key);
    ApplyNoticeExactly(t, n, key);
  }
}
