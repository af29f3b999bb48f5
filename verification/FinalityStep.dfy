/** What one event or one notice does to one key: the exact new state, the exact updates, and
    what a conflict and a confirmation sweep reach. */
module FinalityStep {
  import opened Common
  import opened Finality

  /** `k` is recorded in some live block numbered `from` or higher. */
  ghost predicate LiveFrom(blocks: Blocks, from: U64, k: string) {
    exists b :: b in blocks && from <= b && k in blocks[b].eventKeys
  }

  /** `k` is recorded in some live block numbered `to` or lower. */
  ghost predicate LiveUpTo(blocks: Blocks, to: U64, k: string) {
    exists b :: b in blocks && b <= to && k in blocks[b].eventKeys
  }

  ghost predicate Mentions(proposals: seq<FinalityUpdate>, k: string) {
    exists i :: 0 <= i < |proposals| && proposals[i].eventKey == k
  }

  /** The lifecycle states a log emits for one key, in order. */
  function Word(log: seq<FinalityUpdate>, k: string): seq<LifecycleState> {
    if log == [] then []
    else
      var last := |log| - 1;
      Word(log[..last], k) + if log[last].eventKey == k then [log[last].lifecycleState] else []
  }

  lemma {:induction false} WordConcat(a: seq<FinalityUpdate>, b: seq<FinalityUpdate>, k: string)
    ensures Word(a + b, k) == Word(a, k) + Word(b, k)
  {
    if b == [] {
      assert a + b == a;
    } else {
      assert (a + b)[..|a + b| - 1] == a + b[..|b| - 1];
      WordConcat(a, b[..|b| - 1], k);
    }
  }

  // ---- what the ordered traversals visit ----

  lemma {:induction false} KeysAlongMember(blocks: Blocks, order: seq<U64>, k: string)
    ensures k in KeysAlong(blocks, order)
       <==> exists i :: 0 <= i < |order| && k in EntryAt(blocks, order[i]).eventKeys
  {
    if order != [] {
      var last := |order| - 1;
      KeysAlongMember(blocks, order[..last], k);
      if k in KeysAlong(blocks, order[..last]) {
        var i :| 0 <= i < last && k in EntryAt(blocks, order[..last][i]).eventKeys;
        assert k in EntryAt(blocks, order[i]).eventKeys;
      }
      if i :| 0 <= i < |order| && k in EntryAt(blocks, order[i]).eventKeys && i < last {
        assert order[..last][i] == order[i];
      }
    }
  }

  /** A notice lists exactly the keys recorded at or above the orphaned block. */
  lemma AffectedExactly(blocks: Blocks, from: U64, k: string)
    ensures k in AffectedKeys(blocks, from) <==> LiveFrom(blocks, from, k)
  {
    var order := Ascending(NumbersFrom(blocks, from));
    KeysAlongMember(blocks, order, k);
    if LiveFrom(blocks, from, k) {
      var b :| b in blocks && from <= b && k in blocks[b].eventKeys;
      assert b in NumbersFrom(blocks, from);
      var i :| 0 <= i < |order| && order[i] == b;
    }
  }

  lemma {:induction false} SweepMember(chain: Chain, blocks: Blocks, order: seq<U64>, u: FinalityUpdate)
    ensures u in Sweep(chain, blocks, order)
       <==> && u.chain == chain && u.lifecycleState == Confirmed && u.blockNumber in order
            && u.eventKey in EntryAt(blocks, u.blockNumber).eventKeys
            && u.blockHash == EntryAt(blocks, u.blockNumber).blockHash
  {
    if order != [] {
      var last := |order| - 1;
      var number := order[last];
      SweepMember(chain, blocks, order[..last], u);
      assert order == order[..last] + [number];
      var more := Confirmations(chain, number, EntryAt(blocks, number));
      var keys := EntryAt(blocks, number).eventKeys;
      if u.eventKey in keys {
        var i :| 0 <= i < |keys| && keys[i] == u.eventKey;
        assert more[i].eventKey == u.eventKey && more[i] in more;
      }
    }
  }

  /** The sweep proposes a confirmation for a key exactly when it is live at or below the height. */
  lemma SweepMentions(chain: Chain, blocks: Blocks, height: U64, k: string)
    ensures var sweep := Sweep(chain, blocks, Ascending(NumbersUpTo(blocks, height)));
      Mentions(sweep, k) <==> LiveUpTo(blocks, height, k)
  {
    var order := Ascending(NumbersUpTo(blocks, height));
    var sweep := Sweep(chain, blocks, order);
    if Mentions(sweep, k) {
      var i :| 0 <= i < |sweep| && sweep[i].eventKey == k;
      SweepMember(chain, blocks, order, sweep[i]);
    }
    if LiveUpTo(blocks, height, k) {
      var b :| b in blocks && b <= height && k in blocks[b].eventKeys;
      assert b in order by { assert b in NumbersUpTo(blocks, height); }
      var u := FinalityUpdate(chain, k, b, blocks[b].blockHash, Confirmed);
      SweepMember(chain, blocks, order, u);
    }
  }

  // ---- one phase: proposals that all aim at the same state ----

  ghost predicate Aims(proposals: seq<FinalityUpdate>, to: LifecycleState) {
    && to in {Provisional, Confirmed, Retracted}
    && forall i :: 0 <= i < |proposals| ==> proposals[i].lifecycleState == to
  }

  lemma {:induction false} OnePhase(states: States, proposals: seq<FinalityUpdate>, to: LifecycleState, k: string)
    requires Aims(proposals, to)
    ensures
      var log := Accepted(states, proposals);
      var moved := Mentions(proposals, k) && Moves(Get(states, k), to);
      && Word(log, k) == (if moved then [to] else [])
      && Get(Replay(states, log), k) == (if moved then Some(to) else Get(states, k))
  {
    if proposals != [] {
      var last := |proposals| - 1;
      var prior := proposals[..last];
      OnePhase(states, prior, to, k);
      AcceptedStep(states, proposals, last);
      assert proposals[..last + 1] == proposals;
      MentionsLast(proposals, k);
      WordLast(Accepted(states, prior), proposals[last], k);
    }
  }

  lemma MentionsLast(proposals: seq<FinalityUpdate>, k: string)
    requires proposals != []
    ensures Mentions(proposals, k)
       <==> Mentions(proposals[..|proposals| - 1], k) || proposals[|proposals| - 1].eventKey == k
  {
    var prior := proposals[..|proposals| - 1];
    if i :| 0 <= i < |proposals| && proposals[i].eventKey == k && i != |proposals| - 1 {
      assert prior[i].eventKey == k;
    }
    if i :| 0 <= i < |prior| && prior[i].eventKey == k {
      assert proposals[i].eventKey == k;
    }
  }

  lemma WordLast(log: seq<FinalityUpdate>, u: FinalityUpdate, k: string)
    ensures Word(log + [u], k) == Word(log, k) + (if u.eventKey == k then [u.lifecycleState] else [])
  {
    assert (log + [u])[..|log|] == log;
  }

  lemma RetractionsMention(chain: Chain, keys: seq<string>, block: U64, hash: Option<string>, k: string)
    ensures Aims(Retractions(chain, keys, block, hash), Retracted)
    ensures Mentions(Retractions(chain, keys, block, hash), k) <==> k in keys
  {
    var proposals := Retractions(chain, keys, block, hash);
    if k in keys {
      var i :| 0 <= i < |keys| && keys[i] == k;
      assert proposals[i].eventKey == k;
    }
  }

  // ---- the exact effect of one event on one key ----

  ghost function AfterConflict(t: Tracker, e: NormalizedEvent, k: string): Option<LifecycleState> {
    if Conflicts(t, e) && LiveFrom(t.blocks, e.blockNumber, k) then Some(Retracted) else Get(t.states, k)
  }

  ghost function AfterRecord(t: Tracker, e: NormalizedEvent, k: string): Option<LifecycleState> {
    if k == e.eventKey && AfterConflict(t, e, k) == None then Some(Provisional) else AfterConflict(t, e, k)
  }

  ghost function AfterSweep(t: Tracker, e: NormalizedEvent, k: string): Option<LifecycleState> {
    if AfterRecord(t, e, k) == Some(Provisional) && LiveUpTo(NextBlocks(t, e), FinalizedHeight(t, e), k)
    then Some(Confirmed) else AfterRecord(t, e, k)
  }

  lemma SweepAims(chain: Chain, blocks: Blocks, order: seq<U64>)
    ensures Aims(Sweep(chain, blocks, order), Confirmed)
  {
    var sweep := Sweep(chain, blocks, order);
    forall i | 0 <= i < |sweep| ensures sweep[i].lifecycleState == Confirmed {
      SweepMember(chain, blocks, order, sweep[i]);
    }
  }

  lemma RetractStage(t: Tracker, e: NormalizedEvent, k: string)
    ensures
      var log := Accepted(t.states, RetractPhase(t, e));
      && Get(Replay(t.states, log), k) == AfterConflict(t, e, k)
      && Word(log, k) == (if AfterConflict(t, e, k) != Get(t.states, k) then [Retracted] else [])
  {
    AffectedExactly(t.blocks, e.blockNumber, k);
    RetractionsMention(t.chain, AffectedKeys(t.blocks, e.blockNumber), e.blockNumber, e.blockHash, k);
    OnePhase(t.states, RetractPhase(t, e), Retracted, k);
  }

  lemma RecordStage(t: Tracker, e: NormalizedEvent, states: States, k: string)
    requires Get(states, k) == AfterConflict(t, e, k)
    ensures
      var log := Accepted(states, RecordPhase(t, e));
      && Get(Replay(states, log), k) == AfterRecord(t, e, k)
      && Word(log, k) == (if AfterRecord(t, e, k) != AfterConflict(t, e, k) then [Provisional] else [])
  {
    assert RecordPhase(t, e)[0].eventKey == e.eventKey;
    OnePhase(states, RecordPhase(t, e), Provisional, k);
  }

  lemma ConfirmStage(t: Tracker, e: NormalizedEvent, states: States, k: string)
    requires Get(states, k) == AfterRecord(t, e, k)
    ensures
      var log := Accepted(states, ConfirmPhase(t, e));
      && Get(Replay(states, log), k) == AfterSweep(t, e, k)
      && Word(log, k) == (if AfterSweep(t, e, k) != AfterRecord(t, e, k) then [Confirmed] else [])
  {
    SweepMentions(t.chain, NextBlocks(t, e), FinalizedHeight(t, e), k);
    SweepAims(t.chain, NextBlocks(t, e), Ascending(NumbersUpTo(NextBlocks(t, e), FinalizedHeight(t, e))));
    OnePhase(states, ConfirmPhase(t, e), Confirmed, k);
  }

  /** Each of the three stages emits one update for a key exactly when it changes the key's state. */
  lemma ObserveExactly(t: Tracker, e: NormalizedEvent, k: string)
    requires e.chain == t.chain
    ensures
      var (next, batch) := Observe(t, e);
      && Get(next.states, k) == AfterSweep(t, e, k)
      && Word(batch.updates, k)
         == (if AfterConflict(t, e, k) != Get(t.states, k) then [Retracted] else [])
          + (if AfterRecord(t, e, k) != AfterConflict(t, e, k) then [Provisional] else [])
          + (if AfterSweep(t, e, k) != AfterRecord(t, e, k) then [Confirmed] else [])
  {
    var a := Accepted(t.states, RetractPhase(t, e));
    var afterA := Replay(t.states, a);
    var b := Accepted(afterA, RecordPhase(t, e));
    var afterB := Replay(afterA, b);
    var c := Accepted(afterB, ConfirmPhase(t, e));
    RetractStage(t, e, k);
    RecordStage(t, e, afterA, k);
    ConfirmStage(t, e, afterB, k);
    ThreePhases(t.states, RetractPhase(t, e), RecordPhase(t, e), ConfirmPhase(t, e));
    WordConcat(a + b, c, k);
    WordConcat(a, b, k);
  }

  lemma ApplyNoticeExactly(t: Tracker, n: ReorgNotice, k: string)
    requires n.chain == t.chain
    ensures
      var (next, updates) := ApplyNotice(t, n);
      && Get(next.states, k) == (if k in n.affectedEventKeys then Some(Retracted) else Get(t.states, k))
      && Word(updates, k)
         == (if k in n.affectedEventKeys && Get(t.states, k) != Some(Retracted) then [Retracted] else [])
  {
    RetractionsMention(n.chain, n.affectedEventKeys, n.orphanedFromBlock, None, k);
    OnePhase(t.states, NoticeProposals(n), Retracted, k);
  }

  // ---- consequences ----

  lemma {:induction false} AcceptedAreProposed(states: States, proposals: seq<FinalityUpdate>, u: FinalityUpdate)
    requires u in Accepted(states, proposals)
    ensures u in proposals
  {
    var last := |proposals| - 1;
    if u in Accepted(states, proposals[..last]) {
      AcceptedAreProposed(states, proposals[..last], u);
    }
  }

  /** A confirmation names a live block that holds the key, carries that block's hash and is at
      least the effective depth below the head (block 0 excepted: the height saturates at 0). */
  lemma ConfirmedFromFinalizedBlock(t: Tracker, e: NormalizedEvent, u: FinalityUpdate)
    requires e.chain == t.chain
    requires u in Observe(t, e).1.updates && u.lifecycleState == Confirmed
    ensures
      var next := Observe(t, e).0;
      && u.blockNumber in next.blocks
      && u.eventKey in next.blocks[u.blockNumber].eventKeys
      && u.blockHash == next.blocks[u.blockNumber].blockHash
      && (u.blockNumber > 0 ==> u.blockNumber + EffectiveDepth(t, e) <= next.head)
  {
    AcceptedAreProposed(t.states, EventProposals(t, e), u);
    assert u !in RetractPhase(t, e);
    SweepMember(t.chain, NextBlocks(t, e), Ascending(NumbersUpTo(NextBlocks(t, e), FinalizedHeight(t, e))), u);
  }

  /** The early stop of the sweep misses nothing: no finalized live key is left provisional. */
  lemma NothingFinalizedStaysProvisional(t: Tracker, e: NormalizedEvent, b: U64, k: string)
    requires e.chain == t.chain
    requires
      var next := Observe(t, e).0;
      b in next.blocks && k in next.blocks[b].eventKeys && b <= SaturatingSub(next.head, EffectiveDepth(t, e))
    ensures Get(Observe(t, e).0.states, k) != Some(Provisional)
  {
    ObserveExactly(t, e, k);
    assert LiveUpTo(NextBlocks(t, e), FinalizedHeight(t, e), k);
  }

  // ---- keys a tracker has never heard of ----

  /** The step touches `k`: it emits an update for it or lists it in a notice. */
  ghost predicate Touches(notice: Option<ReorgNotice>, updates: seq<FinalityUpdate>, k: string) {
    Word(updates, k) != [] || (notice.Some? && k in notice.value.affectedEventKeys)
  }

  ghost predicate Unheard(t: Tracker, k: string) {
    k !in t.states && !LiveFrom(t.blocks, 0, k)
  }

  lemma BlocksKeepUnheard(t: Tracker, e: NormalizedEvent, k: string)
    requires !LiveFrom(t.blocks, 0, k) && k != e.eventKey
    ensures !LiveFrom(NextBlocks(t, e), 0, k)
  {
    var next := NextBlocks(t, e);
    forall b | b in next ensures k !in next[b].eventKeys {
      if b in t.blocks { assert k !in t.blocks[b].eventKeys; }
    }
  }

  lemma EventKeepsUnheard(t: Tracker, e: NormalizedEvent, k: string)
    requires Unheard(t, k) && k != e.eventKey
    ensures Unheard(Observe(t, e).0, k)
    ensures !Touches(Observe(t, e).1.reorgNotice, Observe(t, e).1.updates, k)
  {
    if e.chain == t.chain {
      BlocksKeepUnheard(t, e, k);
      assert !LiveFrom(t.blocks, e.blockNumber, k);
      AffectedExactly(t.blocks, e.blockNumber, k);
      ObserveExactly(t, e, k);
      assert AfterSweep(t, e, k) == None;
    }
  }

  lemma NoticeKeepsUnheard(t: Tracker, n: ReorgNotice, k: string)
    requires Unheard(t, k) && k !in n.affectedEventKeys && n.chain == t.chain
    ensures Unheard(ApplyNotice(t, n).0, k)
    ensures !Touches(Some(n), ApplyNotice(t, n).1, k)
  {
    ApplyNoticeExactly(t, n, k);
  }
}
