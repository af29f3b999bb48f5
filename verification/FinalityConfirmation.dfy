/** When a provisional key is confirmed, and the keys that a read-back notice leaves behind for good
    (crates/state-manager/src/finality.rs, apps/finality/src/main.rs). */
module FinalityConfirmation {
  import opened Common
  import opened Finality
  import opened FinalityStep
  import opened FinalityRuns

  ghost predicate Live(t: Tracker, k: string) {
    LiveFrom(t.blocks, 0, k)
  }

  // ---- in a given run ----

  /** The input is an event whose sweep reaches a live block of the key while it is provisional. */
  ghost predicate Confirms(t: Tracker, i: Input, k: string) {
    && i.Seen? && i.event.chain == t.chain
    && AfterRecord(t, i.event, k) == Some(Provisional)
    && LiveUpTo(NextBlocks(t, i.event), FinalizedHeight(t, i.event), k)
  }

  lemma StepConfirmsExactly(t: Tracker, i: Input, k: string)
    ensures Confirmed in Word(Emits(t, i), k) <==> Confirms(t, i, k)
  {
    match i
    case Seen(e) => if e.chain == t.chain { ObserveExactly(t, e, k); }
    case Noticed(n) => if n.chain == t.chain { ApplyNoticeExactly(t, n, k); }
  }

  ghost predicate ConfirmedAt(t: Tracker, inputs: seq<Input>, n: int, k: string) {
    0 <= n < |inputs| && Confirms(RunFrom(t, inputs[..n]), inputs[n], k)
  }

  lemma ConfirmedAtLast(t: Tracker, inputs: seq<Input>, k: string)
    requires inputs != []
    ensures
      var prior := inputs[..|inputs| - 1];
      (exists n :: ConfirmedAt(t, inputs, n, k))
      <==> (exists n :: ConfirmedAt(t, prior, n, k)) || Confirms(RunFrom(t, prior), inputs[|inputs| - 1], k)
  {
    var last := |inputs| - 1;
    var prior := inputs[..last];
    if n :| ConfirmedAt(t, prior, n, k) {
      assert inputs[..n] == prior[..n];
      assert ConfirmedAt(t, inputs, n, k);
    }
    if n :| ConfirmedAt(t, inputs, n, k) && n < last {
      assert inputs[..n] == prior[..n];
      assert ConfirmedAt(t, prior, n, k);
    }
    assert Confirms(RunFrom(t, prior), inputs[last], k) ==> ConfirmedAt(t, inputs, last, k);
  }

  /** A run confirms a key exactly when one of its events reaches a live block of the key while the
      key is provisional. */
  lemma {:induction false} ConfirmedInRunExactly(t: Tracker, inputs: seq<Input>, k: string)
    ensures Confirmed in Word(Log(t, inputs), k) <==> exists n :: ConfirmedAt(t, inputs, n, k)
  {
    if inputs != [] {
      var prior := inputs[..|inputs| - 1];
      ConfirmedInRunExactly(t, prior, k);
      LogWordStep(t, inputs, k);
      StepConfirmsExactly(RunFrom(t, prior), inputs[|inputs| - 1], k);
      ConfirmedAtLast(t, inputs, k);
    }
  }

  // ---- when confirmation is out of reach ----

  /** No event of the chain carries the key. */
  ghost predicate NotSeen(chain: Chain, inputs: seq<Input>, k: string) {
    forall n :: 0 <= n < |inputs| && inputs[n].Seen? && inputs[n].event.chain == chain ==> inputs[n].event.eventKey != k
  }

  /** The greatest height any sweep can reach: a depth of at least 1 leaves out the last number. */
  function Ceiling(defaultDepth: U64): U64 {
    if defaultDepth == 0 then MAX_U64 else MAX_U64 - 1
  }

  /** A live block that a sweep can reach holds the key. */
  ghost predicate Reachable(t: Tracker, k: string) {
    LiveUpTo(t.blocks, Ceiling(t.defaultDepth), k)
  }

  lemma BlocksKeepUnreachable(t: Tracker, e: NormalizedEvent, k: string)
    requires !Reachable(t, k) && k != e.eventKey
    ensures !LiveUpTo(NextBlocks(t, e), Ceiling(t.defaultDepth), k)
  {
    var next := NextBlocks(t, e);
    forall b | b in next && b <= Ceiling(t.defaultDepth) ensures k !in next[b].eventKeys {
      if b in t.blocks { assert k !in t.blocks[b].eventKeys; }
    }
  }

  lemma StrandedStep(t: Tracker, i: Input, k: string)
    requires !Reachable(t, k)
    requires i.Seen? && i.event.chain == t.chain ==> i.event.eventKey != k
    ensures !Reachable(Step(t, i), k) && !Confirms(t, i, k)
  {
    match i
    case Seen(e) =>
      if e.chain == t.chain {
        BlocksKeepUnreachable(t, e, k);
        assert FinalizedHeight(t, e) <= Ceiling(t.defaultDepth);
      }
    case Noticed(n) =>
      if n.chain == t.chain {
        var kept := BlocksBelow(t.blocks, n.orphanedFromBlock);
        assert forall b :: b in kept ==> b in t.blocks && kept[b] == t.blocks[b];
      }
  }

  /** A key in no live block stays unconfirmed over every run that does not record it again. */
  lemma {:induction false} StrandedIsNeverConfirmed(t: Tracker, inputs: seq<Input>, k: string)
    requires !Reachable(t, k) && NotSeen(t.chain, inputs, k)
    ensures Confirmed !in Word(Log(t, inputs), k) && !Reachable(RunFrom(t, inputs), k)
  {
    if inputs != [] {
      var last := |inputs| - 1;
      var prior := inputs[..last];
      var before := RunFrom(t, prior);
      assert NotSeen(t.chain, prior, k);
      StrandedIsNeverConfirmed(t, prior, k);
      RunKeepsChain(t, prior);
      StrandedStep(before, inputs[last], k);
      StepConfirmsExactly(before, inputs[last], k);
      LogWordStep(t, inputs, k);
    }
  }

  /** One more event under another key reaches every block that can be reached at all. */
  lemma TopEventConfirms(t: Tracker, k: string, b: U64)
    requires Get(t.states, k) == Some(Provisional)
    requires b in t.blocks && k in t.blocks[b].eventKeys && b <= Ceiling(t.defaultDepth)
    ensures exists inputs :: NotSeen(t.chain, inputs, k) && Confirmed in Word(Log(t, inputs), k)
  {
    var e := BareEvent(t.chain, k + "x", MAX_U64, if b == MAX_U64 then None else Some(1));
    assert |e.eventKey| != |k|;
    assert !Conflicts(t, e) && AfterRecord(t, e, k) == Some(Provisional);
    var next := NextBlocks(t, e);
    assert b in next && k in next[b].eventKeys && b <= FinalizedHeight(t, e);
    assert Confirms(t, Seen(e), k);
    StepConfirmsExactly(t, Seen(e), k);
    assert Log(t, [Seen(e)]) == Emits(t, Seen(e)) by { OneInput(t, Seen(e)); }
    assert NotSeen(t.chain, [Seen(e)], k);
  }

  /** A provisional key can still be confirmed without being seen again exactly when a live block
      within reach of the sweep holds it. */
  lemma ConfirmableExactly(t: Tracker, k: string)
    requires Get(t.states, k) == Some(Provisional)
    ensures (exists inputs :: NotSeen(t.chain, inputs, k) && Confirmed in Word(Log(t, inputs), k)) <==> Reachable(t, k)
  {
    if Reachable(t, k) {
      var b :| b in t.blocks && b <= Ceiling(t.defaultDepth) && k in t.blocks[b].eventKeys;
      TopEventConfirms(t, k, b);
    } else {
      forall inputs | NotSeen(t.chain, inputs, k) ensures Confirmed !in Word(Log(t, inputs), k) {
        StrandedIsNeverConfirmed(t, inputs, k);
      }
    }
  }

  // ---- when confirmation is certain ----

  /** The input does not roll back past block b and does not retract the key. */
  ghost predicate Spares(t: Tracker, i: Input, b: U64, k: string) {
    match i
    case Seen(e) =>
      e.chain == t.chain && Conflicts(t, e) ==> b < e.blockNumber && !LiveFrom(t.blocks, e.blockNumber, k)
    case Noticed(n) =>
      n.chain == t.chain ==> b < n.orphanedFromBlock && k !in n.affectedEventKeys
  }

  ghost predicate AllSpare(t: Tracker, inputs: seq<Input>, b: U64, k: string) {
    forall n :: 0 <= n < |inputs| ==> Spares(RunFrom(t, inputs[..n]), inputs[n], b, k)
  }

  ghost predicate Pending(t: Tracker, b: U64, k: string) {
    b in t.blocks && k in t.blocks[b].eventKeys && Get(t.states, k) in {Some(Provisional), Some(Confirmed)}
  }

  lemma SparedStep(t: Tracker, i: Input, b: U64, k: string)
    requires Pending(t, b, k) && Spares(t, i, b, k)
    ensures Pending(Step(t, i), b, k)
  {
    match i
    case Seen(e) => if e.chain == t.chain { ObserveExactly(t, e, k); }
    case Noticed(n) => if n.chain == t.chain { ApplyNoticeExactly(t, n, k); }
  }

  lemma {:induction false} SparedStaysPending(t: Tracker, inputs: seq<Input>, b: U64, k: string)
    requires Pending(t, b, k) && AllSpare(t, inputs, b, k)
    ensures Pending(RunFrom(t, inputs), b, k)
  {
    if inputs != [] {
      var last := |inputs| - 1;
      var prior := inputs[..last];
      forall n | 0 <= n < |prior| ensures Spares(RunFrom(t, prior[..n]), prior[n], b, k) {
        assert prior[..n] == inputs[..n];
      }
      SparedStaysPending(t, prior, b, k);
      SparedStep(RunFrom(t, prior), inputs[last], b, k);
    }
  }

  /** Over every run that spares the key and its block, the key is confirmed once an event has raised
      the head to its depth above the block. */
  lemma SparedKeyIsConfirmed(t: Tracker, inputs: seq<Input>, e: NormalizedEvent, b: U64, k: string)
    requires Pending(t, b, k) && AllSpare(t, inputs + [Seen(e)], b, k) && e.chain == t.chain
    ensures
      var before, next := RunFrom(t, inputs), RunFrom(t, inputs + [Seen(e)]);
      b <= SaturatingSub(next.head, EffectiveDepth(before, e)) ==> Get(next.states, k) == Some(Confirmed)
  {
    var all := inputs + [Seen(e)];
    assert all[..|inputs|] == inputs;
    SparedStaysPending(t, all, b, k);
    RunKeepsChain(t, inputs);
    if b <= SaturatingSub(RunFrom(t, all).head, EffectiveDepth(RunFrom(t, inputs), e)) {
      NothingFinalizedStaysProvisional(RunFrom(t, inputs), e, b, k);
    }
  }

  // ---- notices that leave a key behind ----

  /** A notice leaves a provisional key in no live block exactly when it does not list the key and every
      block that holds the key is numbered at or above the orphaned one. */
  lemma NoticeStrandsExactly(t: Tracker, n: ReorgNotice, k: string)
    requires n.chain == t.chain && Get(t.states, k) == Some(Provisional)
    ensures
      var after := ApplyNotice(t, n).0;
      Get(after.states, k) == Some(Provisional) && !Live(after, k)
      <==> && k !in n.affectedEventKeys
           && forall b :: b in t.blocks && k in t.blocks[b].eventKeys ==> n.orphanedFromBlock <= b
  {
    ApplyNoticeExactly(t, n, k);
    var kept := BlocksBelow(t.blocks, n.orphanedFromBlock);
    if b :| b in t.blocks && k in t.blocks[b].eventKeys && b < n.orphanedFromBlock {
      assert b in kept && k in kept[b].eventKeys;
    }
  }

  /** Where a key that no live block holds is recorded. */
  lemma NewKeyIsOnlyThere(t: Tracker, e: NormalizedEvent)
    requires !Live(t, e.eventKey)
    ensures
      var next := NextBlocks(t, e);
      forall b :: b in next ==> (e.eventKey in next[b].eventKeys <==> b == e.blockNumber)
  {
    var next := NextBlocks(t, e);
    assert forall b :: b in t.blocks ==> e.eventKey !in t.blocks[b].eventKeys;
    assert forall b :: b in next && b != e.blockNumber ==> b in t.blocks && next[b] == t.blocks[b];
  }

  lemma ConflictHead(t: Tracker, e: NormalizedEvent)
    requires Conflicts(t, e)
    ensures NextHead(t, e) == e.blockNumber
  {
    LargestNumberIs(KeptBlocks(t, e));
  }

  lemma ConflictConfirmsExactly(t: Tracker, e: NormalizedEvent)
    requires e.chain == t.chain && Conflicts(t, e) && e.eventKey !in t.states && !Live(t, e.eventKey)
    ensures Get(Observe(t, e).0.states, e.eventKey)
         == Some(if e.blockNumber == 0 || EffectiveDepth(t, e) == 0 then Confirmed else Provisional)
  {
    var k, next := e.eventKey, NextBlocks(t, e);
    ObserveExactly(t, e, k);
    NewKeyIsOnlyThere(t, e);
    ConflictHead(t, e);
    assert !LiveFrom(t.blocks, e.blockNumber, k);
    assert AfterRecord(t, e, k) == Some(Provisional);
    assert e.blockNumber in next;
    assert LiveUpTo(next, FinalizedHeight(t, e), k) <==> e.blockNumber <= FinalizedHeight(t, e);
  }

  /** No live block other than b holds the key. */
  ghost predicate OnlyAt(blocks: Blocks, b: U64, k: string) {
    forall c :: c in blocks && c != b ==> k !in blocks[c].eventKeys
  }

  lemma OnlyAtStep(t: Tracker, i: Input, b: U64, k: string)
    requires OnlyAt(t.blocks, b, k)
    requires i.Seen? && i.event.chain == t.chain ==> i.event.eventKey != k
    ensures OnlyAt(Step(t, i).blocks, b, k)
  {
    var next := Step(t, i).blocks;
    forall c | c in next && c != b ensures k !in next[c].eventKeys {
      if c in t.blocks { assert k !in t.blocks[c].eventKeys; }
    }
  }

  lemma {:induction false} StaysOnlyAt(t: Tracker, inputs: seq<Input>, b: U64, k: string)
    requires OnlyAt(t.blocks, b, k) && NotSeen(t.chain, inputs, k)
    ensures OnlyAt(RunFrom(t, inputs).blocks, b, k)
  {
    if inputs != [] {
      var prior := inputs[..|inputs| - 1];
      assert NotSeen(t.chain, prior, k);
      StaysOnlyAt(t, prior, b, k);
      RunKeepsChain(t, prior);
      OnlyAtStep(RunFrom(t, prior), inputs[|inputs| - 1], b, k);
    }
  }

  lemma NoticeOfNewKey(t: Tracker, e: NormalizedEvent, n: ReorgNotice)
    requires Valid(t) && e.eventKey !in t.states && Observe(t, e).1.reorgNotice == Some(n)
    ensures e.chain == t.chain && Conflicts(t, e) && !Live(t, e.eventKey)
    ensures n.chain == t.chain && n.orphanedFromBlock == e.blockNumber && e.eventKey !in n.affectedEventKeys
  {
    AffectedExactly(t.blocks, e.blockNumber, e.eventKey);
  }

  /** Right after the event, its new key is provisional unless it was confirmed at once, and only the
      event's block holds it. */
  lemma NewKeyAfterConflict(t: Tracker, e: NormalizedEvent, n: ReorgNotice)
    requires Valid(t) && e.eventKey !in t.states && Observe(t, e).1.reorgNotice == Some(n)
    ensures
      var next := Observe(t, e).0;
      && next.chain == t.chain && OnlyAt(next.blocks, e.blockNumber, e.eventKey)
      && Get(next.states, e.eventKey)
         == Some(if e.blockNumber == 0 || EffectiveDepth(t, e) == 0 then Confirmed else Provisional)
  {
    NoticeOfNewKey(t, e, n);
    ConflictConfirmsExactly(t, e);
    NewKeyIsOnlyThere(t, e);
    assert Observe(t, e).0.blocks == NextBlocks(t, e);
  }

  /** For every notice that an event under a new key raises, read back after any run that does not see
      the key again: the key keeps its state, is in no live block, and no later run that does not see
      it again ever confirms it. */
  lemma OwnNoticeStrandsNewKey(t: Tracker, e: NormalizedEvent, n: ReorgNotice, meanwhile: seq<Input>, inputs: seq<Input>)
    requires Valid(t) && e.eventKey !in t.states && Observe(t, e).1.reorgNotice == Some(n)
    requires NotSeen(t.chain, meanwhile + inputs, e.eventKey)
    ensures
      var before := RunFrom(Observe(t, e).0, meanwhile);
      var after := ApplyNotice(before, n).0;
      && !Live(after, e.eventKey)
      && Get(after.states, e.eventKey) == Get(before.states, e.eventKey)
      && Confirmed !in Word(Log(after, inputs), e.eventKey)
  {
    var k, next := e.eventKey, Observe(t, e).0;
    var before := RunFrom(next, meanwhile);
    var after := ApplyNotice(before, n).0;
    NoticeOfNewKey(t, e, n);
    NewKeyAfterConflict(t, e, n);
    forall i | 0 <= i < |meanwhile| ensures meanwhile[i] == (meanwhile + inputs)[i] {}
    forall i | 0 <= i < |inputs| ensures inputs[i] == (meanwhile + inputs)[|meanwhile| + i] {}
    RunKeepsChain(next, meanwhile);
    StaysOnlyAt(next, meanwhile, e.blockNumber, k);
    assert Get(after.states, k) == Get(before.states, k) by { ApplyNoticeExactly(before, n, k); }
    assert after.blocks == BlocksBelow(before.blocks, e.blockNumber) && after.chain == t.chain;
    assert !Live(after, k);
    StrandedIsNeverConfirmed(after, inputs, k);
  }
}
