/** The per-chain finality tracker and its in-memory mirror
    (crates/state-manager/src/finality.rs).

    `Observe` and `ApplyNotice` give the outcome of the two entry points as functions of the
    tracker's value; the class methods below walk the maps step by step and are proved to
    produce exactly that outcome. */
module Finality {
  import opened Common

  datatype Chain = Ethereum | Arbitrum | Optimism | Base | Polygon | Avalanche | BSC | Offchain | Unknown

  datatype LifecycleState = Provisional | Confirmed | Retracted | Suppressed | Resolved

  datatype NormalizedEvent = NormalizedEvent(
    chain: Chain,
    eventKey: string,
    blockNumber: U64,
    blockHash: Option<string>,
    requiresConfirmation: bool,
    confirmationDepth: U64)

  datatype FinalityUpdate = FinalityUpdate(
    chain: Chain,
    eventKey: string,
    blockNumber: U64,
    blockHash: Option<string>,
    lifecycleState: LifecycleState)

  datatype ReorgNotice = ReorgNotice(
    chain: Chain,
    orphanedFromBlock: U64,
    commonAncestorBlock: U64,
    affectedEventKeys: seq<string>)

  datatype FinalityBatch = FinalityBatch(updates: seq<FinalityUpdate>, reorgNotice: Option<ReorgNotice>)

  datatype BlockEntry = BlockEntry(blockHash: Option<string>, eventKeys: seq<string>)

  type Blocks = map<U64, BlockEntry>
  type States = map<string, LifecycleState>

  datatype Tracker = Tracker(chain: Chain, defaultDepth: U64, head: U64, blocks: Blocks, states: States)

  // ---- lifecycle moves ----

  /** The test the tracker makes on a key's current state before it writes a new one. */
  predicate Moves(from: Option<LifecycleState>, to: LifecycleState) {
    match to
    case Provisional => from == None
    case Confirmed => from == Some(Provisional)
    case Retracted => from != Some(Retracted)
    case Suppressed => false
    case Resolved => false
  }

  predicate Admits(states: States, u: FinalityUpdate) {
    Moves(Get(states, u.eventKey), u.lifecycleState)
  }

  /** What a consumer holds after applying a log of updates in order. */
  function Replay(states: States, log: seq<FinalityUpdate>): States {
    if log == [] then states
    else
      var last := |log| - 1;
      Replay(states, log[..last])[log[last].eventKey := log[last].lifecycleState]
  }

  /** The updates that are emitted when `proposals` are tried in order. */
  function Accepted(states: States, proposals: seq<FinalityUpdate>): seq<FinalityUpdate> {
    if proposals == [] then []
    else
      var last := |proposals| - 1;
      var log := Accepted(states, proposals[..last]);
      if Admits(Replay(states, log), proposals[last]) then log + [proposals[last]] else log
  }

  /** The mirror's reaction to a notice: every listed key becomes retracted. */
  function RetractKeys(states: States, keys: seq<string>): States {
    if keys == [] then states
    else RetractKeys(states, keys[..|keys| - 1])[keys[|keys| - 1] := Retracted]
  }

  // ---- ordered traversals of the live blocks ----

  function BlocksBelow(blocks: Blocks, from: U64): Blocks {
    map b | b in blocks && b < from :: blocks[b]
  }

  function NumbersFrom(blocks: Blocks, from: U64): set<U64> {
    set b | b in blocks && from <= b
  }

  function NumbersUpTo(blocks: Blocks, to: U64): set<U64> {
    set b | b in blocks && b <= to
  }

  /** The entry at a live block number; a number that is not live holds nothing. */
  function EntryAt(blocks: Blocks, b: U64): BlockEntry {
    if b in blocks then blocks[b] else BlockEntry(None, [])
  }

  function KeysAlong(blocks: Blocks, order: seq<U64>): seq<string> {
    if order == [] then []
    else KeysAlong(blocks, order[..|order| - 1]) + EntryAt(blocks, order[|order| - 1]).eventKeys
  }

  function AffectedKeys(blocks: Blocks, from: U64): seq<string> {
    KeysAlong(blocks, Ascending(NumbersFrom(blocks, from)))
  }

  function LargestNumber(blocks: Blocks): U64 {
    var order := Ascending(blocks.Keys);
    if order == [] then 0 else order[|order| - 1]
  }

  function Retractions(chain: Chain, keys: seq<string>, block: U64, hash: Option<string>): (proposals: seq<FinalityUpdate>) {
    seq(|keys|, i requires 0 <= i < |keys| => FinalityUpdate(chain, keys[i], block, hash, Retracted))
  }

  function Confirmations(chain: Chain, block: U64, entry: BlockEntry): (proposals: seq<FinalityUpdate>) {
    seq(|entry.eventKeys|, i requires 0 <= i < |entry.eventKeys| =>
      FinalityUpdate(chain, entry.eventKeys[i], block, entry.blockHash, Confirmed))
  }

  function Sweep(chain: Chain, blocks: Blocks, order: seq<U64>): seq<FinalityUpdate> {
    if order == [] then []
    else
      var last := order[|order| - 1];
      Sweep(chain, blocks, order[..|order| - 1]) + Confirmations(chain, last, EntryAt(blocks, last))
  }

  // ---- one event ----

  function ConflictingHash(blocks: Blocks, block: U64, incoming: Option<string>): Option<string> {
    if block in blocks && blocks[block].blockHash.Some? && incoming.Some? && blocks[block].blockHash != incoming
    then incoming else None
  }

  predicate Conflicts(t: Tracker, e: NormalizedEvent) {
    ConflictingHash(t.blocks, e.blockNumber, e.blockHash).Some?
  }

  function KeptBlocks(t: Tracker, e: NormalizedEvent): Blocks {
    if Conflicts(t, e) then BlocksBelow(t.blocks, e.blockNumber) else t.blocks
  }

  function WithEvent(entry: Option<BlockEntry>, e: NormalizedEvent): BlockEntry {
    match entry
    case None => BlockEntry(e.blockHash, [e.eventKey])
    case Some(known) =>
      BlockEntry(
        if known.blockHash == None then e.blockHash else known.blockHash,
        if e.eventKey in known.eventKeys then known.eventKeys else known.eventKeys + [e.eventKey])
  }

  function NextBlocks(t: Tracker, e: NormalizedEvent): Blocks {
    var kept := KeptBlocks(t, e);
    kept[e.blockNumber := WithEvent(Get(kept, e.blockNumber), e)]
  }

  function NextHead(t: Tracker, e: NormalizedEvent): U64 {
    Max(if Conflicts(t, e) then LargestNumber(KeptBlocks(t, e)) else t.head, e.blockNumber)
  }

  function EffectiveDepth(t: Tracker, e: NormalizedEvent): U64 {
    if e.requiresConfirmation then Max(e.confirmationDepth, 1) else t.defaultDepth
  }

  function FinalizedHeight(t: Tracker, e: NormalizedEvent): U64 {
    SaturatingSub(NextHead(t, e), EffectiveDepth(t, e))
  }

  function RetractPhase(t: Tracker, e: NormalizedEvent): seq<FinalityUpdate> {
    if Conflicts(t, e)
    then Retractions(t.chain, AffectedKeys(t.blocks, e.blockNumber), e.blockNumber, e.blockHash)
    else []
  }

  function RecordPhase(t: Tracker, e: NormalizedEvent): seq<FinalityUpdate> {
    [FinalityUpdate(t.chain, e.eventKey, e.blockNumber, e.blockHash, Provisional)]
  }

  function ConfirmPhase(t: Tracker, e: NormalizedEvent): seq<FinalityUpdate> {
    Sweep(t.chain, NextBlocks(t, e), Ascending(NumbersUpTo(NextBlocks(t, e), FinalizedHeight(t, e))))
  }

  function EventProposals(t: Tracker, e: NormalizedEvent): seq<FinalityUpdate> {
    RetractPhase(t, e) + RecordPhase(t, e) + ConfirmPhase(t, e)
  }

  function ConflictNotice(t: Tracker, e: NormalizedEvent): Option<ReorgNotice> {
    var affected := AffectedKeys(t.blocks, e.blockNumber);
    if Conflicts(t, e) && affected != []
    then Some(ReorgNotice(t.chain, e.blockNumber, SaturatingSub(e.blockNumber, 1), affected))
    else None
  }

  function Observe(t: Tracker, e: NormalizedEvent): (Tracker, FinalityBatch) {
    if e.chain != t.chain then (t, FinalityBatch([], None))
    else
      var updates := Accepted(t.states, EventProposals(t, e));
      (t.(head := NextHead(t, e), blocks := NextBlocks(t, e), states := Replay(t.states, updates)),
       FinalityBatch(updates, ConflictNotice(t, e)))
  }

  // ---- one notice ----

  function NoticeProposals(n: ReorgNotice): seq<FinalityUpdate> {
    Retractions(n.chain, n.affectedEventKeys, n.orphanedFromBlock, None)
  }

  function ApplyNotice(t: Tracker, n: ReorgNotice): (Tracker, seq<FinalityUpdate>) {
    if n.chain != t.chain then (t, [])
    else
      var updates := Accepted(t.states, NoticeProposals(n));
      var kept := BlocksBelow(t.blocks, n.orphanedFromBlock);
      (t.(head := LargestNumber(kept), blocks := kept, states := Replay(t.states, updates)), updates)
  }

  function Fresh(chain: Chain, depth: U64): Tracker {
    Tracker(chain, Max(depth, 1), 0, map[], map[])
  }

  // ---- laws of Replay and Accepted used by the loops ----

  lemma {:induction false} ReplayConcat(states: States, a: seq<FinalityUpdate>, b: seq<FinalityUpdate>)
    ensures Replay(states, a + b) == Replay(Replay(states, a), b)
  {
    if b == [] {
      assert a + b == a;
    } else {
      var last := |b| - 1;
      assert (a + b)[..|a + b| - 1] == a + b[..last];
      ReplayConcat(states, a, b[..last]);
    }
  }

  lemma {:induction false} AcceptedConcat(states: States, p: seq<FinalityUpdate>, q: seq<FinalityUpdate>)
    ensures Accepted(states, p + q)
         == Accepted(states, p) + Accepted(Replay(states, Accepted(states, p)), q)
  {
    var log := Accepted(states, p);
    if q == [] {
      assert p + q == p;
    } else {
      var prior := q[..|q| - 1];
      assert (p + q)[..|p + q| - 1] == p + prior;
      AcceptedConcat(states, p, prior);
      var more := Accepted(Replay(states, log), prior);
      ReplayConcat(states, log, more);
      assert log + (more + [q[|q| - 1]]) == (log + more) + [q[|q| - 1]];
    }
  }

  lemma ThreePhases(states: States, p: seq<FinalityUpdate>, q: seq<FinalityUpdate>, r: seq<FinalityUpdate>)
    ensures
      var a := Accepted(states, p);
      var afterA := Replay(states, a);
      var b := Accepted(afterA, q);
      var afterB := Replay(afterA, b);
      var c := Accepted(afterB, r);
      && Accepted(states, p + q + r) == a + b + c
      && Replay(states, a + b + c) == Replay(afterB, c)
  {
    var a := Accepted(states, p);
    var b := Accepted(Replay(states, a), q);
    AcceptedConcat(states, p, q);
    AcceptedConcat(states, p + q, r);
    ReplayConcat(states, a, b);
    ReplayConcat(states, a + b, Accepted(Replay(states, a + b), r));
  }

  lemma AcceptedStep(states: States, proposals: seq<FinalityUpdate>, i: nat)
    requires i < |proposals|
    ensures
      var log := Accepted(states, proposals[..i]);
      var u := proposals[i];
      var next := Accepted(states, proposals[..i + 1]);
      && next == (if Admits(Replay(states, log), u) then log + [u] else log)
      && Replay(states, next)
         == (if Admits(Replay(states, log), u)
             then Replay(states, log)[u.eventKey := u.lifecycleState] else Replay(states, log))
  {
    assert proposals[..i + 1][..i] == proposals[..i];
    var log := Accepted(states, proposals[..i]);
    assert (log + [proposals[i]])[..|log|] == log;
  }

  lemma SweepStep(states: States, chain: Chain, blocks: Blocks, order: seq<U64>, i: nat,
                  log: seq<FinalityUpdate>, more: seq<FinalityUpdate>)
    requires i < |order|
    requires log == Accepted(states, Sweep(chain, blocks, order[..i]))
    requires more == Accepted(Replay(states, log), Confirmations(chain, order[i], EntryAt(blocks, order[i])))
    ensures log + more == Accepted(states, Sweep(chain, blocks, order[..i + 1]))
    ensures Replay(states, log + more) == Replay(Replay(states, log), more)
  {
    assert order[..i + 1][..i] == order[..i];
    AcceptedConcat(states, Sweep(chain, blocks, order[..i]), Confirmations(chain, order[i], EntryAt(blocks, order[i])));
    ReplayConcat(states, log, more);
  }

  /** Stopping at the first block above `height` leaves out no block at or below it. */
  lemma PrefixUpTo(blocks: Blocks, order: seq<U64>, i: nat, height: U64)
    requires Enumerates(order, blocks.Keys)
    requires i <= |order|
    requires forall j :: 0 <= j < i ==> order[j] <= height
    requires i < |order| ==> order[i] > height
    ensures order[..i] == Ascending(NumbersUpTo(blocks, height))
  {
    var prefix := order[..i];
    forall b | b in NumbersUpTo(blocks, height) ensures b in prefix {
      var j :| 0 <= j < |order| && order[j] == b;
      assert prefix[j] == b;
    }
    EnumerationUnique(prefix, Ascending(NumbersUpTo(blocks, height)), NumbersUpTo(blocks, height));
  }

  // ---- the tracker object ----

  class ChainFinalityTracker {
    const chain: Chain
    var defaultConfirmationDepth: U64
    var headBlock: U64
    var blocks: Blocks
    var states: States

    function Value(): Tracker
      reads this
    {
      Tracker(chain, defaultConfirmationDepth, headBlock, blocks, states)
    }

    constructor (chain: Chain, depth: U64)
      ensures Value() == Fresh(chain, depth)
    {
      this.chain := chain;
      defaultConfirmationDepth := Max(depth, 1);
      headBlock := 0;
      blocks := map[];
      states := map[];
    }

    /** Rebuilds a tracker from saved parts; the depth is taken as it is. */
    constructor Restore(saved: Tracker)
      ensures Value() == saved
    {
      chain := saved.chain;
      defaultConfirmationDepth := saved.defaultDepth;
      headBlock := saved.head;
      blocks := saved.blocks;
      states := saved.states;
    }

    method RollbackFromBlock(from: U64)
      modifies this`blocks, this`headBlock
      ensures blocks == BlocksBelow(old(blocks), from)
      ensures headBlock == LargestNumber(blocks)
    {
      blocks := BlocksBelow(blocks, from);
      headBlock := LargestNumber(blocks);
    }

    /** Writes Retracted for every key and reports those that were not retracted before. */
    method RetractAll(keys: seq<string>, block: U64, hash: Option<string>)
      returns (updates: seq<FinalityUpdate>)
      modifies this`states
      ensures updates == Accepted(old(states), Retractions(chain, keys, block, hash))
      ensures states == Replay(old(states), updates)
    {
      updates := [];
      ghost var proposals := Retractions(chain, keys, block, hash);
      for i := 0 to |keys|
        invariant updates == Accepted(old(states), proposals[..i])
        invariant states == Replay(old(states), updates)
      {
        var key := keys[i];
        var before := Get(states, key);
        AcceptedStep(old(states), proposals, i);
        ghost var prior := states;
        states := states[key := Retracted];
        if before != Some(Retracted) {
          updates := updates + [FinalityUpdate(chain, key, block, hash, Retracted)];
        } else {
          assert states == prior;
        }
      }
      assert proposals[..|keys|] == proposals;
    }

    /** Confirms the provisional keys of one block. */
    method ConfirmBlock(number: U64, entry: BlockEntry) returns (updates: seq<FinalityUpdate>)
      modifies this`states
      ensures updates == Accepted(old(states), Confirmations(chain, number, entry))
      ensures states == Replay(old(states), updates)
    {
      updates := [];
      ghost var proposals := Confirmations(chain, number, entry);
      for i := 0 to |entry.eventKeys|
        invariant updates == Accepted(old(states), proposals[..i])
        invariant states == Replay(old(states), updates)
      {
        var key := entry.eventKeys[i];
        AcceptedStep(old(states), proposals, i);
        if Get(states, key) == Some(Provisional) {
          states := states[key := Confirmed];
          updates := updates + [FinalityUpdate(chain, key, number, entry.blockHash, Confirmed)];
        }
      }
      assert proposals[..|entry.eventKeys|] == proposals;
    }

    /** Walks the live blocks in ascending order and stops at the first one above `height`. */
    method ConfirmUpTo(height: U64) returns (updates: seq<FinalityUpdate>)
      modifies this`states
      ensures updates == Accepted(old(states), Sweep(chain, blocks, Ascending(NumbersUpTo(blocks, height))))
      ensures states == Replay(old(states), updates)
    {
      updates := [];
      var order := Ascending(blocks.Keys);
      var i := 0;
      while i < |order|
        invariant 0 <= i <= |order|
        invariant forall j :: 0 <= j < i ==> order[j] <= height
        invariant updates == Accepted(old(states), Sweep(chain, blocks, order[..i]))
        invariant states == Replay(old(states), updates)
      {
        var number := order[i];
        if number > height {
          break;
        }
        var confirmed := ConfirmBlock(number, blocks[number]);
        SweepStep(old(states), chain, blocks, order, i, updates, confirmed);
        updates := updates + confirmed;
        i := i + 1;
      }
      PrefixUpTo(blocks, order, i, height);
    }

    method ObserveEvent(event: NormalizedEvent) returns (batch: FinalityBatch)
      modifies this
      ensures Value() == Observe(old(Value()), event).0
      ensures batch == Observe(old(Value()), event).1
    {
      if event.chain != chain {
        return FinalityBatch([], None);
      }
      ghost var t := Value();
      var notice, updates := ResolveConflict(event);
      ghost var retracted := updates;
      var recorded := RecordEvent(event);
      assert blocks == NextBlocks(t, event) && headBlock == NextHead(t, event);

      var depth := if event.requiresConfirmation then Max(event.confirmationDepth, 1) else defaultConfirmationDepth;
      var confirmed := ConfirmUpTo(SaturatingSub(headBlock, depth));
      ThreePhases(t.states, RetractPhase(t, event), RecordPhase(t, event), ConfirmPhase(t, event));
      batch := FinalityBatch(updates + recorded + confirmed, notice);
    }

    /** Rolls back from a block whose hash changed and retracts what had been recorded there. */
    method ResolveConflict(event: NormalizedEvent) returns (notice: Option<ReorgNotice>, updates: seq<FinalityUpdate>)
      modifies this`blocks, this`headBlock, this`states
      ensures blocks == KeptBlocks(old(Value()), event)
      ensures headBlock == if Conflicts(old(Value()), event) then LargestNumber(blocks) else old(headBlock)
      ensures updates == Accepted(old(states), RetractPhase(old(Value()), event))
      ensures states == Replay(old(states), updates)
      ensures notice == ConflictNotice(old(Value()), event)
    {
      notice, updates := None, [];
      var number := event.blockNumber;
      if ConflictingHash(blocks, number, event.blockHash).Some? {
        var affected := AffectedKeys(blocks, number);
        RollbackFromBlock(number);
        if affected != [] {
          notice := Some(ReorgNotice(chain, number, SaturatingSub(number, 1), affected));
          updates := RetractAll(affected, number, event.blockHash);
        }
      }
    }

    /** Adds the event to its block, raises the head and gives a new key its first state. */
    method RecordEvent(event: NormalizedEvent) returns (updates: seq<FinalityUpdate>)
      modifies this`blocks, this`headBlock, this`states
      ensures blocks == old(blocks)[event.blockNumber := WithEvent(Get(old(blocks), event.blockNumber), event)]
      ensures headBlock == Max(old(headBlock), event.blockNumber)
      ensures updates == Accepted(old(states), [FinalityUpdate(chain, event.eventKey, event.blockNumber, event.blockHash, Provisional)])
      ensures states == Replay(old(states), updates)
    {
      var number := event.blockNumber;
      var entry := if number in blocks then blocks[number] else BlockEntry(event.blockHash, []);
      if entry.blockHash.None? {
        entry := entry.(blockHash := event.blockHash);
      }
      if event.eventKey !in entry.eventKeys {
        assert [] + [event.eventKey] == [event.eventKey];
        entry := entry.(eventKeys := entry.eventKeys + [event.eventKey]);
      }
      blocks := blocks[number := entry];
      headBlock := Max(headBlock, number);
      updates := [];
      if event.eventKey !in states {
        states := states[event.eventKey := Provisional];
        updates := [FinalityUpdate(chain, event.eventKey, number, event.blockHash, Provisional)];
      }
    }

    method ApplyReorgNotice(notice: ReorgNotice) returns (updates: seq<FinalityUpdate>)
      modifies this
      ensures Value() == ApplyNotice(old(Value()), notice).0
      ensures updates == ApplyNotice(old(Value()), notice).1
    {
      if notice.chain != chain {
        return [];
      }
      RollbackFromBlock(notice.orphanedFromBlock);
      updates := RetractAll(notice.affectedEventKeys, notice.orphanedFromBlock, None);
    }
  }

  // ---- the mirror ----

  class InMemoryFinalityEngine {
    var states: States

    constructor ()
      ensures states == map[]
    {
      states := map[];
    }

    method ApplyUpdate(update: FinalityUpdate)
      modifies this
      ensures states == old(states)[update.eventKey := update.lifecycleState]
    {
      states := states[update.eventKey := update.lifecycleState];
    }

    method HandleReorgNotice(notice: ReorgNotice)
      modifies this
      ensures states == RetractKeys(old(states), notice.affectedEventKeys)
    {
      var keys := notice.affectedEventKeys;
      for i := 0 to |keys|
        invariant states == RetractKeys(old(states), keys[..i])
      {
        assert keys[..i + 1][..i] == keys[..i];
        states := states[keys[i] := Retracted];
      }
      assert keys[..|keys|] == keys;
    }
  }
}
