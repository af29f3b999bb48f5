/** The updates of one event or notice, field by field and in order, stated over the tracker's fields
    (crates/state-manager/src/finality.rs). */
module FinalityUpdates {
  import opened Common
  import opened Finality
  import opened FinalityStep
  import opened FinalityRuns

  /** The event's block is live with a hash and the event carries another one. */
  ghost predicate HashesDiffer(t: Tracker, e: NormalizedEvent) {
    && e.blockNumber in t.blocks
    && t.blocks[e.blockNumber].blockHash.Some? && e.blockHash.Some?
    && t.blocks[e.blockNumber].blockHash != e.blockHash
  }

  /** The event's conflict takes the key back. */
  ghost predicate Orphaned(t: Tracker, e: NormalizedEvent, k: string) {
    HashesDiffer(t, e) && exists b :: b in t.blocks && e.blockNumber <= b && k in t.blocks[b].eventKeys
  }

  lemma {:induction false} WordMember(log: seq<FinalityUpdate>, k: string, to: LifecycleState)
    ensures to in Word(log, k) <==> exists i :: 0 <= i < |log| && log[i].eventKey == k && log[i].lifecycleState == to
  {
    if log != [] {
      var last := |log| - 1;
      WordMember(log[..last], k, to);
      if i :| 0 <= i < last && log[..last][i].eventKey == k && log[..last][i].lifecycleState == to {
        assert log[i].eventKey == k;
      }
      if i :| 0 <= i < |log| && log[i].eventKey == k && log[i].lifecycleState == to && i < last {
        assert log[..last][i].eventKey == k;
      }
    }
  }

  // ---- every field of every update ----

  lemma ProposalFields(t: Tracker, e: NormalizedEvent, u: FinalityUpdate)
    requires u in EventProposals(t, e)
    ensures u.lifecycleState in {Retracted, Provisional, Confirmed}
    ensures u.lifecycleState == Retracted ==> u == FinalityUpdate(t.chain, u.eventKey, e.blockNumber, e.blockHash, Retracted)
    ensures u.lifecycleState == Provisional ==> u == FinalityUpdate(t.chain, e.eventKey, e.blockNumber, e.blockHash, Provisional)
    ensures u.lifecycleState == Confirmed ==> u in ConfirmPhase(t, e)
  {
    if u in ConfirmPhase(t, e) {
      SweepMember(t.chain, NextBlocks(t, e), Ascending(NumbersUpTo(NextBlocks(t, e), FinalizedHeight(t, e))), u);
    }
  }

  /** Which updates retract: those of the live keys at or above a conflicting block that are not
      retracted yet, with the event's own block number and hash. */
  lemma RetractedUpdatesExactly(t: Tracker, e: NormalizedEvent, u: FinalityUpdate)
    requires e.chain == t.chain && u.lifecycleState == Retracted
    ensures u in Observe(t, e).1.updates
       <==> && u.chain == e.chain && u.blockNumber == e.blockNumber && u.blockHash == e.blockHash
            && Orphaned(t, e, u.eventKey) && Get(t.states, u.eventKey) != Some(Retracted)
  {
    var k, updates := u.eventKey, Observe(t, e).1.updates;
    ObserveExactly(t, e, k);
    WordMember(updates, k, Retracted);
    if u in updates {
      AcceptedAreProposed(t.states, EventProposals(t, e), u);
      ProposalFields(t, e, u);
    }
    if i :| 0 <= i < |updates| && updates[i].eventKey == k && updates[i].lifecycleState == Retracted {
      AcceptedAreProposed(t.states, EventProposals(t, e), updates[i]);
      ProposalFields(t, e, updates[i]);
    }
  }

  /** Which update is provisional: the event's own, if its key had no state and is not taken back. */
  lemma ProvisionalUpdatesExactly(t: Tracker, e: NormalizedEvent, u: FinalityUpdate)
    requires e.chain == t.chain && u.lifecycleState == Provisional
    ensures u in Observe(t, e).1.updates
       <==> && u.chain == e.chain && u.blockNumber == e.blockNumber && u.blockHash == e.blockHash
            && u.eventKey == e.eventKey && u.eventKey !in t.states && !Orphaned(t, e, u.eventKey)
  {
    var k, updates := u.eventKey, Observe(t, e).1.updates;
    ObserveExactly(t, e, k);
    WordMember(updates, k, Provisional);
    if u in updates {
      AcceptedAreProposed(t.states, EventProposals(t, e), u);
      ProposalFields(t, e, u);
    }
    if i :| 0 <= i < |updates| && updates[i].eventKey == k && updates[i].lifecycleState == Provisional {
      AcceptedAreProposed(t.states, EventProposals(t, e), updates[i]);
      ProposalFields(t, e, updates[i]);
    }
  }

  /** The updates of a notice: one for every listed key that is not retracted, with the orphaned number
      and no hash. */
  lemma NoticeUpdatesExactly(t: Tracker, n: ReorgNotice, u: FinalityUpdate)
    requires n.chain == t.chain
    ensures u in ApplyNotice(t, n).1
       <==> && u.chain == n.chain && u.blockNumber == n.orphanedFromBlock && u.blockHash == None
            && u.lifecycleState == Retracted
            && u.eventKey in n.affectedEventKeys && Get(t.states, u.eventKey) != Some(Retracted)
  {
    var k, updates := u.eventKey, ApplyNotice(t, n).1;
    ApplyNoticeExactly(t, n, k);
    WordMember(updates, k, Retracted);
    if u in updates {
      AcceptedAreProposed(t.states, NoticeProposals(n), u);
      WordMember(updates, k, u.lifecycleState);
    }
    if i :| 0 <= i < |updates| && updates[i].eventKey == k && updates[i].lifecycleState == Retracted {
      AcceptedAreProposed(t.states, NoticeProposals(n), updates[i]);
      assert updates[i] == FinalityUpdate(n.chain, k, n.orphanedFromBlock, None, Retracted);
    }
  }

  // ---- order ----

  function Stage(state: LifecycleState): nat {
    match state
    case Retracted => 0
    case Provisional => 1
    case _ => 2
  }

  ghost predicate ListedBefore(keys: seq<string>, j: string, k: string) {
    exists p, q :: 0 <= p < q < |keys| && keys[p] == j && keys[q] == k
  }

  /** `v` may come after `u`: retractions in the order of the notice, then the new event, then
      confirmations by block number and, within a block, in the order of recording. */
  ghost predicate Follows(affected: seq<string>, blocks: Blocks, u: FinalityUpdate, v: FinalityUpdate) {
    && Stage(u.lifecycleState) <= Stage(v.lifecycleState)
    && (u.lifecycleState == Retracted == v.lifecycleState ==> ListedBefore(affected, u.eventKey, v.eventKey))
    && (u.lifecycleState == Confirmed == v.lifecycleState ==>
          u.blockNumber < v.blockNumber
          || (u.blockNumber == v.blockNumber && u.blockNumber in blocks
              && ListedBefore(blocks[u.blockNumber].eventKeys, u.eventKey, v.eventKey)))
  }

  ghost predicate Ordered(affected: seq<string>, blocks: Blocks, log: seq<FinalityUpdate>) {
    forall i, j :: 0 <= i < j < |log| ==> Follows(affected, blocks, log[i], log[j])
  }

  lemma OrderedConcat(affected: seq<string>, blocks: Blocks, a: seq<FinalityUpdate>, b: seq<FinalityUpdate>)
    requires Ordered(affected, blocks, a) && Ordered(affected, blocks, b)
    requires forall i, j :: 0 <= i < |a| && 0 <= j < |b| ==> Follows(affected, blocks, a[i], b[j])
    ensures Ordered(affected, blocks, a + b)
  {
  }

  lemma {:induction false} AcceptedOrdered(affected: seq<string>, blocks: Blocks, states: States, proposals: seq<FinalityUpdate>)
    requires Ordered(affected, blocks, proposals)
    ensures Ordered(affected, blocks, Accepted(states, proposals))
  {
    if proposals != [] {
      var last := |proposals| - 1;
      var prior, u := proposals[..last], proposals[last];
      AcceptedOrdered(affected, blocks, states, prior);
      var log := Accepted(states, prior);
      forall i | 0 <= i < |log| ensures Follows(affected, blocks, log[i], u) {
        AcceptedAreProposed(states, prior, log[i]);
        var j :| 0 <= j < last && prior[j] == log[i];
        assert proposals[j] == log[i];
      }
      OrderedConcat(affected, blocks, log, [u]);
    }
  }

  lemma RetractionsOrdered(chain: Chain, affected: seq<string>, block: U64, hash: Option<string>, blocks: Blocks)
    ensures Ordered(affected, blocks, Retractions(chain, affected, block, hash))
  {
    var log := Retractions(chain, affected, block, hash);
    forall i, j | 0 <= i < j < |log| ensures Follows(affected, blocks, log[i], log[j]) {
      assert affected[i] == log[i].eventKey && affected[j] == log[j].eventKey;
    }
  }

  lemma ConfirmationsOrdered(affected: seq<string>, chain: Chain, blocks: Blocks, b: U64)
    requires b in blocks
    ensures Ordered(affected, blocks, Confirmations(chain, b, blocks[b]))
  {
    var log, keys := Confirmations(chain, b, blocks[b]), blocks[b].eventKeys;
    forall i, j | 0 <= i < j < |log| ensures Follows(affected, blocks, log[i], log[j]) {
      assert keys[i] == log[i].eventKey && keys[j] == log[j].eventKey;
    }
  }

  lemma {:induction false} SweepOrdered(affected: seq<string>, chain: Chain, blocks: Blocks, order: seq<U64>)
    requires StrictlyAscending(order) && forall i :: 0 <= i < |order| ==> order[i] in blocks
    ensures Ordered(affected, blocks, Sweep(chain, blocks, order))
  {
    if order != [] {
      var last := |order| - 1;
      var b := order[last];
      var a, c := Sweep(chain, blocks, order[..last]), Confirmations(chain, b, blocks[b]);
      SweepOrdered(affected, chain, blocks, order[..last]);
      ConfirmationsOrdered(affected, chain, blocks, b);
      forall i, j | 0 <= i < |a| && 0 <= j < |c| ensures Follows(affected, blocks, a[i], c[j]) {
        SweepMember(chain, blocks, order[..last], a[i]);
        assert a[i] in a;
      }
      OrderedConcat(affected, blocks, a, c);
    }
  }

  lemma StagesOrdered(affected: seq<string>, blocks: Blocks, a: seq<FinalityUpdate>, b: seq<FinalityUpdate>, c: seq<FinalityUpdate>)
    requires Ordered(affected, blocks, a) && Ordered(affected, blocks, c) && |b| == 1
    requires Aims(a, Retracted) && Aims(b, Provisional) && Aims(c, Confirmed)
    ensures Ordered(affected, blocks, a + b + c)
  {
    OrderedConcat(affected, blocks, a, b);
    OrderedConcat(affected, blocks, a + b, c);
  }

  /** The updates of one event come in the source's order. */
  lemma UpdatesInOrder(t: Tracker, e: NormalizedEvent)
    requires e.chain == t.chain
    ensures Ordered(AffectedKeys(t.blocks, e.blockNumber), Observe(t, e).0.blocks, Observe(t, e).1.updates)
  {
    var affected, blocks := AffectedKeys(t.blocks, e.blockNumber), NextBlocks(t, e);
    var order := Ascending(NumbersUpTo(blocks, FinalizedHeight(t, e)));
    RetractionsOrdered(t.chain, affected, e.blockNumber, e.blockHash, blocks);
    SweepOrdered(affected, t.chain, blocks, order);
    SweepAims(t.chain, blocks, order);
    StagesOrdered(affected, blocks, RetractPhase(t, e), RecordPhase(t, e), ConfirmPhase(t, e));
    AcceptedOrdered(affected, blocks, t.states, EventProposals(t, e));
  }

  /** The order in which a notice lists its keys: block after block upwards, each block's keys in the
      order of recording. Taking away the highest block takes its keys off the end. */
  lemma AffectedInOrder(blocks: Blocks, from: U64, top: U64)
    requires top in blocks && from <= top && forall b :: b in blocks ==> b <= top
    ensures AffectedKeys(blocks, from) == AffectedKeys(blocks - {top}, from) + blocks[top].eventKeys
  {
    var lower := blocks - {top};
    var order := Ascending(NumbersFrom(lower, from));
    var all := order + [top];
    assert Enumerates(all, NumbersFrom(blocks, from)) by {
      forall b | b in NumbersFrom(blocks, from) ensures b in all {
        if b != top { assert b in NumbersFrom(lower, from); }
      }
    }
    EnumerationUnique(all, Ascending(NumbersFrom(blocks, from)), NumbersFrom(blocks, from));
    assert all[..|order|] == order;
    SameKeysAlong(blocks, lower, order);
  }

  lemma {:induction false} SameKeysAlong(a: Blocks, b: Blocks, order: seq<U64>)
    requires forall i :: 0 <= i < |order| ==> EntryAt(a, order[i]) == EntryAt(b, order[i])
    ensures KeysAlong(a, order) == KeysAlong(b, order)
  {
    if order != [] {
      SameKeysAlong(a, b, order[..|order| - 1]);
    }
  }

  // ---- confirmations ----

  /** The key is provisional when the sweep begins. */
  ghost predicate ProvisionalAtSweep(t: Tracker, e: NormalizedEvent, k: string) {
    !Orphaned(t, e, k) && (Get(t.states, k) == Some(Provisional) || (k == e.eventKey && k !in t.states))
  }

  /** Block b is final for a head and the event's depth: an explicit one counts as at least 1. */
  ghost predicate FinalAt(t: Tracker, e: NormalizedEvent, head: U64, b: U64) {
    var depth := if !e.requiresConfirmation then t.defaultDepth
                 else if e.confirmationDepth >= 1 then e.confirmationDepth else 1;
    b == 0 || b + depth <= head
  }

  ghost predicate LowestWith(blocks: Blocks, b: U64, k: string) {
    && b in blocks && k in blocks[b].eventKeys
    && forall c :: c in blocks && k in blocks[c].eventKeys ==> b <= c
  }

  /** The first proposal for a key in a stage is the one that is accepted. */
  lemma {:induction false} AcceptedIsFirst(states: States, proposals: seq<FinalityUpdate>, to: LifecycleState, i: nat)
    requires Aims(proposals, to) && i < |proposals|
    requires forall j :: 0 <= j < i ==> proposals[j].eventKey != proposals[i].eventKey
    requires Moves(Get(states, proposals[i].eventKey), to)
    ensures proposals[i] in Accepted(states, proposals)
  {
    var last := |proposals| - 1;
    if i < last {
      AcceptedIsFirst(states, proposals[..last], to, i);
    } else {
      OnePhase(states, proposals[..last], to, proposals[i].eventKey);
    }
  }

  lemma {:induction false} FirstProposal(proposals: seq<FinalityUpdate>, i: nat) returns (j: nat)
    requires i < |proposals|
    ensures j <= i && proposals[j].eventKey == proposals[i].eventKey
    ensures forall m :: 0 <= m < j ==> proposals[m].eventKey != proposals[i].eventKey
    decreases i
  {
    if m :| 0 <= m < i && proposals[m].eventKey == proposals[i].eventKey {
      j := FirstProposal(proposals, m);
    } else {
      j := i;
    }
  }

  ghost predicate FirstAt(proposals: seq<FinalityUpdate>, u: FinalityUpdate, i: int) {
    0 <= i < |proposals| && proposals[i] == u && forall j :: 0 <= j < i ==> proposals[j].eventKey != u.eventKey
  }

  lemma {:induction false} AcceptedOnlyFirst(states: States, proposals: seq<FinalityUpdate>, to: LifecycleState, u: FinalityUpdate)
    requires Aims(proposals, to) && u in Accepted(states, proposals)
    ensures exists i :: FirstAt(proposals, u, i)
  {
    var last := |proposals| - 1;
    var prior := proposals[..last];
    if u in Accepted(states, prior) {
      AcceptedOnlyFirst(states, prior, to, u);
      var i :| FirstAt(prior, u, i);
      assert FirstAt(proposals, u, i);
    } else {
      OnePhase(states, prior, to, u.eventKey);
      assert !Mentions(prior, u.eventKey);
      forall j | 0 <= j < last ensures proposals[j].eventKey != u.eventKey {
        assert prior[j].eventKey == proposals[j].eventKey;
      }
      assert FirstAt(proposals, u, last);
    }
  }

  /** In a sweep the first proposal for a key names the lowest live block that holds it. */
  lemma FirstIsLowest(chain: Chain, blocks: Blocks, height: U64, u: FinalityUpdate, i: int)
    requires FirstAt(Sweep(chain, blocks, Ascending(NumbersUpTo(blocks, height))), u, i)
    ensures LowestWith(blocks, u.blockNumber, u.eventKey)
  {
    var order := Ascending(NumbersUpTo(blocks, height));
    var sweep := Sweep(chain, blocks, order);
    SweepMember(chain, blocks, order, u);
    SweepOrdered([], chain, blocks, order);
    forall c | c in blocks && u.eventKey in blocks[c].eventKeys ensures u.blockNumber <= c {
      if c <= height {
        var v := FinalityUpdate(chain, u.eventKey, c, blocks[c].blockHash, Confirmed);
        assert c in NumbersUpTo(blocks, height);
        SweepMember(chain, blocks, order, v);
        var j :| 0 <= j < |sweep| && sweep[j] == v;
        assert i <= j && (i < j ==> Follows([], blocks, sweep[i], sweep[j]));
      }
    }
  }

  /** Which proposals of a sweep are accepted: for each provisional key the one of its lowest block. */
  lemma SweepAcceptsExactly(states: States, chain: Chain, blocks: Blocks, height: U64, u: FinalityUpdate)
    ensures
      var sweep := Sweep(chain, blocks, Ascending(NumbersUpTo(blocks, height)));
      u in Accepted(states, sweep)
      <==> && u.chain == chain && u.lifecycleState == Confirmed && LowestWith(blocks, u.blockNumber, u.eventKey)
           && u.blockNumber <= height && u.blockHash == blocks[u.blockNumber].blockHash
           && Get(states, u.eventKey) == Some(Provisional)
  {
    var order := Ascending(NumbersUpTo(blocks, height));
    var sweep := Sweep(chain, blocks, order);
    SweepAims(chain, blocks, order);
    SweepMember(chain, blocks, order, u);
    if u in Accepted(states, sweep) {
      AcceptedOnlyFirst(states, sweep, Confirmed, u);
      var i :| FirstAt(sweep, u, i);
      FirstIsLowest(chain, blocks, height, u, i);
      AcceptedFromState(states, sweep, u);
    }
    if u in sweep && LowestWith(blocks, u.blockNumber, u.eventKey) && Get(states, u.eventKey) == Some(Provisional) {
      var i :| 0 <= i < |sweep| && sweep[i] == u;
      var j := FirstProposal(sweep, i);
      SweepMember(chain, blocks, order, sweep[j]);
      FirstIsLowest(chain, blocks, height, sweep[j], j);
      assert sweep[j] == u;
      AcceptedIsFirst(states, sweep, Confirmed, j);
    }
  }

  lemma AcceptedFromState(states: States, sweep: seq<FinalityUpdate>, u: FinalityUpdate)
    requires Aims(sweep, Confirmed) && u in Accepted(states, sweep)
    ensures Get(states, u.eventKey) == Some(Provisional)
  {
    OnePhase(states, sweep, Confirmed, u.eventKey);
    var log := Accepted(states, sweep);
    var i :| 0 <= i < |log| && log[i] == u;
    WordMember(log, u.eventKey, u.lifecycleState);
    assert u.lifecycleState in Word(log, u.eventKey);
  }

  /** The confirmed updates of an event are those of its last stage. */
  lemma ConfirmedInLastStage(t: Tracker, e: NormalizedEvent, u: FinalityUpdate)
    requires e.chain == t.chain && u.lifecycleState == Confirmed
    ensures
      var a := Accepted(t.states, RetractPhase(t, e));
      var b := Accepted(Replay(t.states, a), RecordPhase(t, e));
      u in Observe(t, e).1.updates <==> u in Accepted(Replay(Replay(t.states, a), b), ConfirmPhase(t, e))
  {
    var a := Accepted(t.states, RetractPhase(t, e));
    var b := Accepted(Replay(t.states, a), RecordPhase(t, e));
    ThreePhases(t.states, RetractPhase(t, e), RecordPhase(t, e), ConfirmPhase(t, e));
    if u in a { AcceptedAreProposed(t.states, RetractPhase(t, e), u); }
    if u in b { AcceptedAreProposed(Replay(t.states, a), RecordPhase(t, e), u); }
  }

  lemma StateAtSweep(t: Tracker, e: NormalizedEvent, k: string)
    requires e.chain == t.chain
    ensures
      var a := Accepted(t.states, RetractPhase(t, e));
      var b := Accepted(Replay(t.states, a), RecordPhase(t, e));
      Get(Replay(Replay(t.states, a), b), k) == Some(Provisional) <==> ProvisionalAtSweep(t, e, k)
  {
    var a := Accepted(t.states, RetractPhase(t, e));
    RetractStage(t, e, k);
    RecordStage(t, e, Replay(t.states, a), k);
    assert Orphaned(t, e, k) <==> Conflicts(t, e) && LiveFrom(t.blocks, e.blockNumber, k);
  }

  /** Which updates confirm: for each key that is provisional when the sweep begins the one of the lowest
      live block that holds it, with that block's hash, if the block is final. */
  lemma ConfirmedUpdatesExactly(t: Tracker, e: NormalizedEvent, u: FinalityUpdate)
    requires e.chain == t.chain && u.lifecycleState == Confirmed
    ensures
      var next := Observe(t, e).0;
      u in Observe(t, e).1.updates
      <==> && u.chain == e.chain && ProvisionalAtSweep(t, e, u.eventKey)
           && LowestWith(next.blocks, u.blockNumber, u.eventKey) && FinalAt(t, e, next.head, u.blockNumber)
           && u.blockHash == next.blocks[u.blockNumber].blockHash
  {
    var a := Accepted(t.states, RetractPhase(t, e));
    var b := Accepted(Replay(t.states, a), RecordPhase(t, e));
    ConfirmedInLastStage(t, e, u);
    StateAtSweep(t, e, u.eventKey);
    SweepAcceptsExactly(Replay(Replay(t.states, a), b), t.chain, NextBlocks(t, e), FinalizedHeight(t, e), u);
    assert FinalAt(t, e, NextHead(t, e), u.blockNumber) <==> u.blockNumber <= FinalizedHeight(t, e);
  }

  // ---- blocks, conflicts, depth ----

  /** The live blocks after an event: below a conflicting block everything stays, the event's block has
      the first hash it was given and its keys in the order of recording. */
  lemma BlocksAfterExactly(t: Tracker, e: NormalizedEvent, b: U64)
    requires e.chain == t.chain
    ensures
      var next := Observe(t, e).0.blocks;
      if b != e.blockNumber then
        && (b in next <==> b in t.blocks && (HashesDiffer(t, e) ==> b < e.blockNumber))
        && (b in next ==> next[b] == t.blocks[b])
      else
        b in next &&
        if b !in t.blocks || HashesDiffer(t, e) then next[b] == BlockEntry(e.blockHash, [e.eventKey])
        else
          var was := t.blocks[b];
          && next[b].blockHash == (if was.blockHash.Some? then was.blockHash else e.blockHash)
          && next[b].eventKeys == if e.eventKey in was.eventKeys then was.eventKeys else was.eventKeys + [e.eventKey]
  {
  }

  /** Over every run of a fresh tracker: an event raises a notice exactly when an event recorded in its
      block, since the block was last created, carried another hash. */
  lemma NoticeRaisedExactly(chain: Chain, depth: U64, inputs: seq<Input>, e: NormalizedEvent)
    requires e.chain == chain
    ensures
      var t := RunFrom(Fresh(chain, depth), inputs);
      var h: History := Recordings(Fresh(chain, depth), inputs);
      Observe(t, e).1.reorgNotice.Some?
      <==> && e.blockHash.Some? && e.blockNumber in h
           && exists i :: 0 <= i < |h[e.blockNumber]| && h[e.blockNumber][i].blockHash.Some?
                          && h[e.blockNumber][i].blockHash != e.blockHash
  {
    var t := RunFrom(Fresh(chain, depth), inputs);
    var h: History := Recordings(Fresh(chain, depth), inputs);
    var b := e.blockNumber;
    LiveBlocksTellHistory(chain, depth, inputs);
    ReachableIsValid(chain, depth, inputs);
    if HashesDiffer(t, e) {
      ConflictRetractsExactly(t, e);
      var i :| 0 <= i < |h[b]| && h[b][i].blockHash == t.blocks[b].blockHash;
    }
    assert Conflicts(t, e) <==> HashesDiffer(t, e);
    if b in h && e.blockHash.Some? {
      assert Tells(t.blocks[b], h[b]);
    }
  }

  /** Over every run of a fresh tracker, whatever depth it was given: no block above 0 is confirmed
      before a higher one has been seen. */
  lemma NeverConfirmsAtHead(chain: Chain, depth: U64, inputs: seq<Input>, e: NormalizedEvent, u: FinalityUpdate)
    requires e.chain == chain && u.lifecycleState == Confirmed && u.blockNumber > 0
    ensures
      var t := RunFrom(Fresh(chain, depth), inputs);
      u in Observe(t, e).1.updates ==> u.blockNumber < Observe(t, e).0.head
  {
    var t := RunFrom(Fresh(chain, depth), inputs);
    RunKeepsChain(Fresh(chain, depth), inputs);
    ConfirmedUpdatesExactly(t, e, u);
  }
}
