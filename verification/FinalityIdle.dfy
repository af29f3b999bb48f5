/** Inputs that change nothing: when a run leaves a tracker's states, or the whole tracker, as they were
    (crates/state-manager/src/finality.rs). */
module FinalityIdle {
  import opened Common
  import opened Finality
  import opened FinalityStep
  import opened FinalityRuns

  // ---- updates always change the states ----

  /** How far a key has come; every emitted update takes it further. */
  function Rank(state: Option<LifecycleState>): nat {
    match state
    case None => 0
    case Some(Provisional) => 1
    case Some(Retracted) => 3
    case Some(_) => 2
  }

  lemma {:induction false} UpdatesRaiseRank(states: States, log: seq<FinalityUpdate>, k: string)
    requires AllMove(states, log)
    ensures Rank(Get(Replay(states, log), k)) >= Rank(Get(states, k)) + |Word(log, k)|
  {
    if log != [] {
      AllMovePrefix(states, log);
      UpdatesRaiseRank(states, log[..|log| - 1], k);
    }
  }

  /** A run leaves all states as they were exactly when it emits nothing. */
  lemma StatesStayExactlyWhenSilent(t: Tracker, inputs: seq<Input>)
    ensures RunFrom(t, inputs).states == t.states <==> Log(t, inputs) == []
  {
    var log := Log(t, inputs);
    LogReproducesStates(t, inputs);
    if log != [] {
      var k := log[|log| - 1].eventKey;
      UpdatesRaiseRank(t.states, log, k);
      assert Word(log, k) != [];
    }
  }

  // ---- entries that leave a tracker as it is ----

  /** No key at or below the height the event's sweep reaches is provisional. */
  ghost predicate NothingToConfirm(t: Tracker, e: NormalizedEvent) {
    forall k :: LiveUpTo(t.blocks, SaturatingSub(t.head, EffectiveDepth(t, e)), k) ==> Get(t.states, k) != Some(Provisional)
  }

  /** The event brings no conflict, no new key, no missing hash and nothing to confirm. */
  ghost predicate IdleEvent(t: Tracker, e: NormalizedEvent) {
    && !Conflicts(t, e)
    && e.blockNumber in t.blocks && e.eventKey in t.blocks[e.blockNumber].eventKeys
    && (t.blocks[e.blockNumber].blockHash.Some? || e.blockHash == None)
    && NothingToConfirm(t, e)
  }

  /** The notice finds no live block to drop and no listed key to retract. */
  ghost predicate IdleNotice(t: Tracker, n: ReorgNotice) {
    && (forall b :: b in t.blocks ==> b < n.orphanedFromBlock)
    && forall k :: k in n.affectedEventKeys ==> Get(t.states, k) == Some(Retracted)
  }

  ghost predicate Idle(t: Tracker, i: Input) {
    match i
    case Seen(e) => e.chain == t.chain ==> IdleEvent(t, e)
    case Noticed(n) => n.chain == t.chain ==> IdleNotice(t, n)
  }

  lemma KnownEventKeepsBlocks(t: Tracker, e: NormalizedEvent)
    requires Valid(t) && !Conflicts(t, e)
    ensures NextBlocks(t, e) == t.blocks
       <==> && e.blockNumber in t.blocks && e.eventKey in t.blocks[e.blockNumber].eventKeys
            && (t.blocks[e.blockNumber].blockHash.Some? || e.blockHash == None)
  {
    var next := NextBlocks(t, e);
    assert e.blockNumber in next;
    if e.blockNumber in t.blocks {
      assert next[e.blockNumber] == WithEvent(Some(t.blocks[e.blockNumber]), e);
      if next[e.blockNumber] == t.blocks[e.blockNumber] {
        assert next == t.blocks;
      }
    }
  }

  /** An event that keeps the blocks keeps the states exactly when there is nothing to confirm. */
  lemma KnownEventKeepsStates(t: Tracker, e: NormalizedEvent)
    requires Valid(t) && e.chain == t.chain && !Conflicts(t, e) && NextBlocks(t, e) == t.blocks
    requires e.blockNumber in t.blocks && e.eventKey in t.blocks[e.blockNumber].eventKeys
    ensures NextHead(t, e) == t.head
    ensures Observe(t, e).0.states == t.states <==> NothingToConfirm(t, e)
  {
    assert e.eventKey in t.states;
    var next := Observe(t, e).0.states;
    forall k ensures Get(next, k) == if Get(t.states, k) == Some(Provisional)
                                        && LiveUpTo(t.blocks, SaturatingSub(t.head, EffectiveDepth(t, e)), k)
                                     then Some(Confirmed) else Get(t.states, k) {
      ObserveExactly(t, e, k);
    }
    if NothingToConfirm(t, e) {
      SameLookups(next, t.states);
    }
  }

  lemma ConflictChangesBlocks(t: Tracker, e: NormalizedEvent)
    requires Conflicts(t, e)
    ensures NextBlocks(t, e) != t.blocks
  {
    assert NextBlocks(t, e)[e.blockNumber].blockHash == e.blockHash;
  }

  lemma IdleEventExactly(t: Tracker, e: NormalizedEvent)
    requires Valid(t) && e.chain == t.chain
    ensures Observe(t, e).0 == t <==> IdleEvent(t, e)
  {
    var next := Observe(t, e).0;
    assert next == t.(head := NextHead(t, e), blocks := NextBlocks(t, e), states := next.states);
    if Conflicts(t, e) {
      ConflictChangesBlocks(t, e);
    } else {
      KnownEventKeepsBlocks(t, e);
      if NextBlocks(t, e) == t.blocks {
        KnownEventKeepsStates(t, e);
      }
    }
  }

  lemma IdleNoticeExactly(t: Tracker, n: ReorgNotice)
    requires Valid(t) && n.chain == t.chain
    ensures ApplyNotice(t, n).0 == t <==> IdleNotice(t, n)
  {
    var next, kept := ApplyNotice(t, n).0, BlocksBelow(t.blocks, n.orphanedFromBlock);
    assert next == t.(head := LargestNumber(kept), blocks := kept, states := next.states);
    assert kept == t.blocks <==> forall b :: b in t.blocks ==> b < n.orphanedFromBlock;
    LargestNumberIs(kept);
    forall k ensures Get(next.states, k) == if k in n.affectedEventKeys then Some(Retracted) else Get(t.states, k) {
      ApplyNoticeExactly(t, n, k);
    }
    if IdleNotice(t, n) {
      SameLookups(next.states, t.states);
    }
  }

  /** An input leaves a valid tracker as it is exactly when it is idle, which can be read off before. */
  lemma StepIsIdleExactly(t: Tracker, i: Input)
    requires Valid(t)
    ensures Step(t, i) == t <==> Idle(t, i)
  {
    match i
    case Seen(e) => if e.chain == t.chain { IdleEventExactly(t, e); }
    case Noticed(n) => if n.chain == t.chain { IdleNoticeExactly(t, n); }
  }

  // ---- runs without rollback that end where they began ----

  ghost predicate AllIdle(t: Tracker, inputs: seq<Input>) {
    forall n :: 0 <= n < |inputs| ==> Idle(t, inputs[n])
  }

  lemma {:induction false} IdleRunChangesNothing(t: Tracker, inputs: seq<Input>)
    requires Valid(t) && AllIdle(t, inputs)
    ensures RunFrom(t, inputs) == t
  {
    if inputs != [] {
      var last := |inputs| - 1;
      assert AllIdle(t, inputs[..last]);
      IdleRunChangesNothing(t, inputs[..last]);
      StepIsIdleExactly(t, inputs[last]);
    }
  }

  /** The input drops no live block. */
  ghost predicate DropsNothing(t: Tracker, i: Input) {
    match i
    case Seen(e) => e.chain == t.chain ==> !Conflicts(t, e)
    case Noticed(n) => n.chain == t.chain ==> forall b :: b in t.blocks ==> b < n.orphanedFromBlock
  }

  ghost predicate NoRollback(t: Tracker, inputs: seq<Input>) {
    forall n :: 0 <= n < |inputs| ==> DropsNothing(RunFrom(t, inputs[..n]), inputs[n])
  }

  ghost predicate EntryGrows(a: BlockEntry, b: BlockEntry) {
    a.eventKeys <= b.eventKeys && (a.blockHash.Some? ==> b.blockHash == a.blockHash)
  }

  /** Everything that `a` holds is still in `b`. */
  ghost predicate BlocksGrow(a: Blocks, b: Blocks) {
    forall n :: n in a ==> n in b && EntryGrows(a[n], b[n])
  }

  lemma BothWaysIsEqual(a: Blocks, b: Blocks)
    requires BlocksGrow(a, b) && BlocksGrow(b, a)
    ensures a == b
  {
    forall n | n in a ensures n in b && a[n] == b[n] {}
    forall n | n in b ensures n in a {}
  }

  lemma GrowTransitive(a: Blocks, b: Blocks, c: Blocks)
    requires BlocksGrow(a, b) && BlocksGrow(b, c)
    ensures BlocksGrow(a, c)
  {
    forall n | n in a ensures n in c && EntryGrows(a[n], c[n]) {
      assert EntryGrows(a[n], b[n]) && EntryGrows(b[n], c[n]);
    }
  }

  lemma StepGrowsBlocks(t: Tracker, i: Input)
    requires DropsNothing(t, i)
    ensures BlocksGrow(t.blocks, Step(t, i).blocks)
  {
    match i
    case Seen(e) =>
      if e.chain == t.chain {
        assert Step(t, i).blocks == NextBlocks(t, e);
      }
    case Noticed(n) =>
      if n.chain == t.chain {
        assert Step(t, i).blocks == BlocksBelow(t.blocks, n.orphanedFromBlock);
      }
  }

  lemma PriorNoRollback(t: Tracker, inputs: seq<Input>)
    requires inputs != [] && NoRollback(t, inputs)
    ensures NoRollback(t, inputs[..|inputs| - 1])
    ensures DropsNothing(RunFrom(t, inputs[..|inputs| - 1]), inputs[|inputs| - 1])
  {
    var prior := inputs[..|inputs| - 1];
    forall n | 0 <= n < |prior| ensures DropsNothing(RunFrom(t, prior[..n]), prior[n]) {
      assert prior[..n] == inputs[..n];
    }
  }

  lemma {:induction false} RunGrowsBlocks(t: Tracker, inputs: seq<Input>)
    requires NoRollback(t, inputs)
    ensures BlocksGrow(t.blocks, RunFrom(t, inputs).blocks)
  {
    if inputs != [] {
      var last := |inputs| - 1;
      var before := RunFrom(t, inputs[..last]);
      PriorNoRollback(t, inputs);
      RunGrowsBlocks(t, inputs[..last]);
      StepGrowsBlocks(before, inputs[last]);
      GrowTransitive(t.blocks, before.blocks, Step(before, inputs[last]).blocks);
    }
  }

  lemma {:induction false} RunKeepsValid(t: Tracker, inputs: seq<Input>)
    requires Valid(t)
    ensures Valid(RunFrom(t, inputs))
  {
    if inputs != [] {
      RunKeepsValid(t, inputs[..|inputs| - 1]);
      StepKeepsValid(RunFrom(t, inputs[..|inputs| - 1]), inputs[|inputs| - 1]);
    }
  }

  lemma LargestIsUnique(blocks: Blocks, m: U64, n: U64)
    requires IsLargest(blocks, m) && IsLargest(blocks, n)
    ensures m == n
  {
  }

  /** A run that rolls nothing back and ends at the same tracker was there one step before the end. */
  lemma UnchangedBeforeLast(t: Tracker, inputs: seq<Input>)
    requires inputs != [] && Valid(t) && NoRollback(t, inputs) && RunFrom(t, inputs) == t
    ensures RunFrom(t, inputs[..|inputs| - 1]) == t
  {
    var last := |inputs| - 1;
    var prior := inputs[..last];
    var before := RunFrom(t, prior);
    PriorNoRollback(t, inputs);
    RunGrowsBlocks(t, prior);
    StepGrowsBlocks(before, inputs[last]);
    BothWaysIsEqual(t.blocks, before.blocks);
    RunKeepsValid(t, prior);
    LargestIsUnique(t.blocks, t.head, before.head);
    RunKeepsChain(t, prior);
    assert before.states == t.states by {
      StatesStayExactlyWhenSilent(t, inputs);
      StatesStayExactlyWhenSilent(t, prior);
      assert Log(t, inputs) == Log(t, prior) + Emits(before, inputs[last]);
    }
  }

  lemma {:induction false} UnchangedRunIsIdle(t: Tracker, inputs: seq<Input>)
    requires Valid(t) && NoRollback(t, inputs) && RunFrom(t, inputs) == t
    ensures AllIdle(t, inputs)
  {
    if inputs != [] {
      var last := |inputs| - 1;
      PriorNoRollback(t, inputs);
      UnchangedBeforeLast(t, inputs);
      UnchangedRunIsIdle(t, inputs[..last]);
      StepIsIdleExactly(t, inputs[last]);
      forall n | 0 <= n < |inputs| ensures Idle(t, inputs[n]) {
        if n < last { assert inputs[..last][n] == inputs[n]; }
      }
    }
  }
}
