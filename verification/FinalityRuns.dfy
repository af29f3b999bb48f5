/** Whole runs of one tracker over any sequence of events and notices. */
module FinalityRuns {
  import opened Common
  import opened Finality
  import opened FinalityStep

  datatype Input = Seen(event: NormalizedEvent) | Noticed(notice: ReorgNotice)

  function Step(t: Tracker, i: Input): Tracker {
    match i
    case Seen(e) => Observe(t, e).0
    case Noticed(n) => ApplyNotice(t, n).0
  }

  function Emits(t: Tracker, i: Input): seq<FinalityUpdate> {
    match i
    case Seen(e) => Observe(t, e).1.updates
    case Noticed(n) => ApplyNotice(t, n).1
  }

  function RunFrom(t: Tracker, inputs: seq<Input>): Tracker {
    if inputs == [] then t
    else Step(RunFrom(t, inputs[..|inputs| - 1]), inputs[|inputs| - 1])
  }

  /** All updates emitted over the run. */
  function Log(t: Tracker, inputs: seq<Input>): seq<FinalityUpdate> {
    if inputs == [] then []
    else
      var prior := inputs[..|inputs| - 1];
      Log(t, prior) + Emits(RunFrom(t, prior), inputs[|inputs| - 1])
  }

  lemma OneInput(t: Tracker, i: Input)
    ensures RunFrom(t, [i]) == Step(t, i) && Log(t, [i]) == Emits(t, i)
  {
    assert [i][..0] == [];
  }

  /** An event that can never conflict, with an explicit depth or the tracker's own. */
  function BareEvent(chain: Chain, key: string, block: U64, depth: Option<U64>): NormalizedEvent {
    NormalizedEvent(chain, key, block, None, depth.Some?, if depth.Some? then depth.value else 0)
  }

  lemma LogWordStep(t: Tracker, inputs: seq<Input>, k: string)
    requires inputs != []
    ensures
      var prior := inputs[..|inputs| - 1];
      Word(Log(t, inputs), k) == Word(Log(t, prior), k) + Word(Emits(RunFrom(t, prior), inputs[|inputs| - 1]), k)
  {
    var prior := inputs[..|inputs| - 1];
    WordConcat(Log(t, prior), Emits(RunFrom(t, prior), inputs[|inputs| - 1]), k);
  }

  // ---- the log reproduces the states, and every update is a move ----

  ghost predicate AllMove(states: States, log: seq<FinalityUpdate>) {
    forall i :: 0 <= i < |log| ==> Admits(Replay(states, log[..i]), log[i])
  }

  lemma {:induction false} AcceptedAllMove(states: States, proposals: seq<FinalityUpdate>)
    ensures AllMove(states, Accepted(states, proposals))
  {
    if proposals != [] {
      var prior := proposals[..|proposals| - 1];
      AcceptedAllMove(states, prior);
      var log, next := Accepted(states, prior), Accepted(states, proposals);
      forall i | 0 <= i < |next| ensures Admits(Replay(states, next[..i]), next[i]) {
        assert next[..i] == log[..i];
        assert log[..|log|] == log;
      }
    }
  }

  lemma MoveInConcat(states: States, a: seq<FinalityUpdate>, b: seq<FinalityUpdate>, i: nat)
    requires AllMove(states, a) && AllMove(Replay(states, a), b)
    requires i < |a + b|
    ensures Admits(Replay(states, (a + b)[..i]), (a + b)[i])
  {
    if i < |a| {
      assert (a + b)[..i] == a[..i];
    } else {
      assert (a + b)[..i] == a + b[..i - |a|];
      ReplayConcat(states, a, b[..i - |a|]);
    }
  }

  lemma AllMoveConcat(states: States, a: seq<FinalityUpdate>, b: seq<FinalityUpdate>)
    requires AllMove(states, a) && AllMove(Replay(states, a), b)
    ensures AllMove(states, a + b)
  {
    forall i | 0 <= i < |a + b| ensures Admits(Replay(states, (a + b)[..i]), (a + b)[i]) {
      MoveInConcat(states, a, b, i);
    }
  }

  lemma StepReplays(t: Tracker, i: Input)
    ensures Step(t, i).states == Replay(t.states, Emits(t, i))
    ensures AllMove(t.states, Emits(t, i))
  {
    match i
    case Seen(e) => AcceptedAllMove(t.states, EventProposals(t, e));
    case Noticed(n) => AcceptedAllMove(t.states, NoticeProposals(n));
  }

  /** After any run the states are the fold of everything emitted, and each emitted update
      passed the lifecycle test against the fold of the updates before it. */
  lemma {:induction false} LogReproducesStates(t: Tracker, inputs: seq<Input>)
    ensures RunFrom(t, inputs).states == Replay(t.states, Log(t, inputs))
    ensures AllMove(t.states, Log(t, inputs))
  {
    if inputs != [] {
      var prior := inputs[..|inputs| - 1];
      var i := inputs[|inputs| - 1];
      LogReproducesStates(t, prior);
      StepReplays(RunFrom(t, prior), i);
      ReplayConcat(t.states, Log(t, prior), Emits(RunFrom(t, prior), i));
      AllMoveConcat(t.states, Log(t, prior), Emits(RunFrom(t, prior), i));
    }
  }

  lemma SameLookups(a: States, b: States)
    requires forall k :: Get(a, k) == Get(b, k)
    ensures a == b
  {
    forall k ensures k in a <==> k in b {
      assert Get(a, k) == Get(b, k);
    }
    forall k | k in a ensures a[k] == b[k] {
      assert Get(a, k) == Get(b, k);
    }
  }

  // ---- lifecycle words ----

  ghost predicate LegalWord(w: seq<LifecycleState>) {
    || w == []
    || w == [Provisional]
    || w == [Provisional, Confirmed]
    || w == [Provisional, Confirmed, Retracted]
    || w == [Provisional, Retracted]
    || w == [Retracted]
  }

  function LastState(w: seq<LifecycleState>): Option<LifecycleState> {
    if w == [] then None else Some(w[|w| - 1])
  }

  lemma LegalWordExtends(w: seq<LifecycleState>, to: LifecycleState)
    requires LegalWord(w) && Moves(LastState(w), to)
    ensures LegalWord(w + [to])
  {
    if w == [Provisional, Confirmed] {
      assert w + [to] == [Provisional, Confirmed, Retracted];
    } else if w == [Provisional] {
      assert w + [to] == [Provisional, Confirmed] || w + [to] == [Provisional, Retracted];
    }
  }

  lemma AllMovePrefix(states: States, log: seq<FinalityUpdate>)
    requires log != [] && AllMove(states, log)
    ensures AllMove(states, log[..|log| - 1])
    ensures Admits(Replay(states, log[..|log| - 1]), log[|log| - 1])
  {
    var prior := log[..|log| - 1];
    forall i | 0 <= i < |prior| ensures Admits(Replay(states, prior[..i]), prior[i]) {
      assert prior[..i] == log[..i];
    }
  }

  lemma {:induction false} MovesSpellLegalWords(log: seq<FinalityUpdate>, k: string)
    requires AllMove(map[], log)
    ensures LegalWord(Word(log, k))
    ensures Get(Replay(map[], log), k) == LastState(Word(log, k))
  {
    if log != [] {
      var prior, last := log[..|log| - 1], log[|log| - 1];
      AllMovePrefix(map[], log);
      MovesSpellLegalWords(prior, k);
      if last.eventKey == k {
        LegalWordExtends(Word(prior, k), last.lifecycleState);
      }
    }
  }

  /** The updates of one key over any run of a fresh tracker. */
  lemma LifecycleOfEveryKey(chain: Chain, depth: U64, inputs: seq<Input>, k: string)
    ensures
      var w := Word(Log(Fresh(chain, depth), inputs), k);
      && LegalWord(w)
      && Get(RunFrom(Fresh(chain, depth), inputs).states, k) == LastState(w)
  {
    LogReproducesStates(Fresh(chain, depth), inputs);
    MovesSpellLegalWords(Log(Fresh(chain, depth), inputs), k);
  }

  function KeysOf(log: seq<FinalityUpdate>): set<string> {
    set u | u in log :: u.eventKey
  }

  function Without(log: seq<FinalityUpdate>, k: string): seq<FinalityUpdate> {
    if log == [] then []
    else
      var rest := Without(log[..|log| - 1], k);
      if log[|log| - 1].eventKey == k then rest else rest + [log[|log| - 1]]
  }

  lemma {:induction false} WithoutCounts(log: seq<FinalityUpdate>, k: string)
    ensures |log| == |Word(log, k)| + |Without(log, k)|
  {
    if log != [] {
      WithoutCounts(log[..|log| - 1], k);
    }
  }

  lemma {:induction false} WithoutWords(log: seq<FinalityUpdate>, k: string, other: string)
    ensures Word(Without(log, k), other) == if other == k then [] else Word(log, other)
  {
    if log != [] {
      WithoutWords(log[..|log| - 1], k, other);
      WordLast(Without(log[..|log| - 1], k), log[|log| - 1], other);
    }
  }

  lemma {:induction false} WithoutKeys(log: seq<FinalityUpdate>, k: string)
    ensures KeysOf(Without(log, k)) == KeysOf(log) - {k}
  {
    if log != [] {
      var prior, last := log[..|log| - 1], log[|log| - 1];
      WithoutKeys(prior, k);
      KeysOfLast(prior, last);
      KeysOfLast(Without(prior, k), last);
      assert log == prior + [last];
    }
  }

  lemma KeysOfLast(log: seq<FinalityUpdate>, u: FinalityUpdate)
    ensures KeysOf(log + [u]) == KeysOf(log) + {u.eventKey}
  {
    assert u in log + [u];
    assert forall v :: v in log + [u] <==> v in log || v == u;
  }

  lemma {:induction false} CountByKey(log: seq<FinalityUpdate>, keys: set<string>)
    requires keys == KeysOf(log)
    requires forall k :: |Word(log, k)| <= 3
    ensures |log| <= 3 * |keys|
    decreases |keys|
  {
    if log != [] {
      var k := log[0].eventKey;
      assert k in keys by { assert log[0] in log; }
      forall other ensures |Word(Without(log, k), other)| <= 3 {
        WithoutWords(log, k, other);
      }
      WithoutCounts(log, k);
      WithoutKeys(log, k);
      CountByKey(Without(log, k), keys - {k});
    }
  }

  /** No run emits more than three updates per distinct key. */
  lemma AtMostThreeUpdatesPerKey(chain: Chain, depth: U64, inputs: seq<Input>)
    ensures var log := Log(Fresh(chain, depth), inputs);
      |log| <= 3 * |KeysOf(log)|
  {
    var log := Log(Fresh(chain, depth), inputs);
    forall k ensures |Word(log, k)| <= 3 {
      LifecycleOfEveryKey(chain, depth, inputs, k);
    }
    CountByKey(log, KeysOf(log));
  }

  // ---- what every reachable tracker satisfies ----

  ghost predicate IsLargest(blocks: Blocks, m: U64) {
    if blocks == map[] then m == 0
    else m in blocks && forall b :: b in blocks ==> b <= m
  }

  ghost predicate Valid(t: Tracker) {
    && IsLargest(t.blocks, t.head)
    && (forall b :: b in t.blocks ==> t.blocks[b].eventKeys != [] && NoDuplicates(t.blocks[b].eventKeys))
    && (forall b, k :: b in t.blocks && k in t.blocks[b].eventKeys ==> k in t.states)
  }

  lemma LargestNumberIs(blocks: Blocks)
    ensures IsLargest(blocks, LargestNumber(blocks))
  {
    var order := Ascending(blocks.Keys);
    if blocks != map[] {
      var b :| b in blocks;
      assert b in order;
      forall c | c in blocks ensures c <= LargestNumber(blocks) {
        assert c in order;
      }
    } else {
      assert order == [];
    }
  }

  lemma KeptIsLargest(t: Tracker, e: NormalizedEvent)
    requires IsLargest(t.blocks, t.head)
    ensures IsLargest(NextBlocks(t, e), NextHead(t, e))
  {
    var kept := KeptBlocks(t, e);
    LargestNumberIs(kept);
    assert IsLargest(kept, if Conflicts(t, e) then LargestNumber(kept) else t.head);
  }

  lemma WithEventKeepsKeys(entry: Option<BlockEntry>, e: NormalizedEvent)
    requires entry.Some? ==> NoDuplicates(entry.value.eventKeys)
    ensures
      var keys := WithEvent(entry, e).eventKeys;
      && keys != [] && NoDuplicates(keys)
      && forall k :: k in keys <==> k == e.eventKey || (entry.Some? && k in entry.value.eventKeys)
  {
  }

  lemma StatesOnlyGrow(t: Tracker, e: NormalizedEvent, k: string)
    requires e.chain == t.chain
    requires k in t.states || k == e.eventKey
    ensures k in Observe(t, e).0.states
  {
    ObserveExactly(t, e, k);
  }

  lemma EventKeepsValid(t: Tracker, e: NormalizedEvent)
    requires Valid(t) && e.chain == t.chain
    ensures Valid(Observe(t, e).0)
  {
    KeptIsLargest(t, e);
    var kept := KeptBlocks(t, e);
    WithEventKeepsKeys(Get(kept, e.blockNumber), e);
    var next := Observe(t, e).0;
    forall b, k | b in next.blocks && k in next.blocks[b].eventKeys ensures k in next.states {
      StatesOnlyGrow(t, e, k);
    }
  }

  lemma NoticeKeepsValid(t: Tracker, n: ReorgNotice)
    requires Valid(t) && n.chain == t.chain
    ensures Valid(ApplyNotice(t, n).0)
  {
    LargestNumberIs(BlocksBelow(t.blocks, n.orphanedFromBlock));
    var next := ApplyNotice(t, n).0;
    forall b, k | b in next.blocks && k in next.blocks[b].eventKeys ensures k in next.states {
      ApplyNoticeExactly(t, n, k);
    }
  }

  lemma StepKeepsValid(t: Tracker, i: Input)
    requires Valid(t)
    ensures Valid(Step(t, i))
  {
    match i
    case Seen(e) => if e.chain == t.chain { EventKeepsValid(t, e); }
    case Noticed(n) => if n.chain == t.chain { NoticeKeepsValid(t, n); }
  }

  /** Head, key lists and states stay consistent over every run. */
  lemma {:induction false} ReachableIsValid(chain: Chain, depth: U64, inputs: seq<Input>)
    ensures Valid(RunFrom(Fresh(chain, depth), inputs))
  {
    if inputs != [] {
      ReachableIsValid(chain, depth, inputs[..|inputs| - 1]);
      StepKeepsValid(RunFrom(Fresh(chain, depth), inputs[..|inputs| - 1]), inputs[|inputs| - 1]);
    }
  }

  // ---- live blocks tell what was recorded since they were created ----

  type History = map<U64, seq<NormalizedEvent>>

  function HistoryBelow(h: History, from: U64): History {
    map b | b in h && b < from :: h[b]
  }

  /** For each block number, the events recorded there since the last rollback past it. */
  function Recordings(t: Tracker, inputs: seq<Input>): History {
    if inputs == [] then map[]
    else
      var prior := inputs[..|inputs| - 1];
      var h := Recordings(t, prior);
      var before := RunFrom(t, prior);
      match inputs[|inputs| - 1]
      case Seen(e) =>
        if e.chain != t.chain then h
        else
          var kept := if Conflicts(before, e) then HistoryBelow(h, e.blockNumber) else h;
          kept[e.blockNumber := (if e.blockNumber in kept then kept[e.blockNumber] else []) + [e]]
      case Noticed(n) =>
        if n.chain != t.chain then h else HistoryBelow(h, n.orphanedFromBlock)
  }

  /** The entry holds the keys of `es` and nothing else; every hash that `es` carries is the
      entry's hash, and the entry has a hash only if some event carried it. */
  ghost predicate Tells(entry: BlockEntry, es: seq<NormalizedEvent>) {
    && (forall i :: 0 <= i < |es| ==> es[i].eventKey in entry.eventKeys)
    && (forall k :: k in entry.eventKeys ==> exists i :: 0 <= i < |es| && es[i].eventKey == k)
    && (forall i :: 0 <= i < |es| && es[i].blockHash.Some? ==> es[i].blockHash == entry.blockHash)
    && (entry.blockHash.Some? ==> exists i :: 0 <= i < |es| && es[i].blockHash == entry.blockHash)
  }

  ghost predicate BlocksTell(blocks: Blocks, h: History) {
    && blocks.Keys == h.Keys
    && forall b :: b in blocks ==> Tells(blocks[b], h[b])
  }

  lemma TellsOneMore(entry: BlockEntry, es: seq<NormalizedEvent>, e: NormalizedEvent)
    requires Tells(entry, es)
    requires !(entry.blockHash.Some? && e.blockHash.Some? && entry.blockHash != e.blockHash)
    ensures Tells(WithEvent(Some(entry), e), es + [e])
  {
    var next, all := WithEvent(Some(entry), e), es + [e];
    forall k | k in next.eventKeys ensures exists i :: 0 <= i < |all| && all[i].eventKey == k {
      if k in entry.eventKeys {
        var i :| 0 <= i < |es| && es[i].eventKey == k;
        assert all[i].eventKey == k;
      } else {
        assert all[|es|].eventKey == k;
      }
    }
    if next.blockHash.Some? {
      if entry.blockHash.Some? {
        var i :| 0 <= i < |es| && es[i].blockHash == entry.blockHash;
        assert all[i].blockHash == next.blockHash;
      } else {
        assert all[|es|].blockHash == next.blockHash;
      }
    }
  }

  lemma EventKeepsTelling(t: Tracker, h: History, e: NormalizedEvent)
    requires BlocksTell(t.blocks, h)
    ensures
      var kept := if Conflicts(t, e) then HistoryBelow(h, e.blockNumber) else h;
      BlocksTell(NextBlocks(t, e),
                 kept[e.blockNumber := (if e.blockNumber in kept then kept[e.blockNumber] else []) + [e]])
  {
    var kept := if Conflicts(t, e) then HistoryBelow(h, e.blockNumber) else h;
    var blocks := KeptBlocks(t, e);
    assert BlocksTell(blocks, kept);
    var b := e.blockNumber;
    if b in blocks {
      TellsOneMore(blocks[b], kept[b], e);
    } else {
      var es := [] + [e];
      assert es[0] == e;
      assert Tells(WithEvent(None, e), es);
    }
  }

  /** Over every run, the live blocks are a faithful summary of the events recorded in them; in
      particular all hash-carrying events of one live block carry that block's hash. */
  lemma {:induction false} LiveBlocksTellHistory(chain: Chain, depth: U64, inputs: seq<Input>)
    ensures BlocksTell(RunFrom(Fresh(chain, depth), inputs).blocks, Recordings(Fresh(chain, depth), inputs))
    ensures RunFrom(Fresh(chain, depth), inputs).chain == chain
  {
    if inputs != [] {
      var prior := inputs[..|inputs| - 1];
      var before := RunFrom(Fresh(chain, depth), prior);
      LiveBlocksTellHistory(chain, depth, prior);
      match inputs[|inputs| - 1]
      case Seen(e) => EventKeepsTelling(before, Recordings(Fresh(chain, depth), prior), e);
      case Noticed(n) =>
    }
  }

  // ---- reorganisations ----

  /** On a hash conflict at block b the notice lists exactly the keys live at or above b, all of
      them end retracted, no other key is retracted, and only the new event is left at b. */
  lemma ConflictRetractsExactly(t: Tracker, e: NormalizedEvent)
    requires e.chain == t.chain && Valid(t) && Conflicts(t, e)
    ensures
      var (next, batch) := Observe(t, e);
      && batch.reorgNotice.Some?
      && var n := batch.reorgNotice.value;
      && n.chain == t.chain && n.orphanedFromBlock == e.blockNumber
      && n.commonAncestorBlock == SaturatingSub(e.blockNumber, 1)
      && (forall k :: k in n.affectedEventKeys <==> LiveFrom(t.blocks, e.blockNumber, k))
      && (forall k :: k in n.affectedEventKeys ==> Get(next.states, k) == Some(Retracted))
      && (forall k :: k !in n.affectedEventKeys ==> Retracted !in Word(batch.updates, k))
      && next.blocks == BlocksBelow(t.blocks, e.blockNumber)[e.blockNumber := BlockEntry(e.blockHash, [e.eventKey])]
  {
    var affected := AffectedKeys(t.blocks, e.blockNumber);
    forall k ensures k in affected <==> LiveFrom(t.blocks, e.blockNumber, k) {
      AffectedExactly(t.blocks, e.blockNumber, k);
    }
    var first := t.blocks[e.blockNumber].eventKeys[0];
    assert LiveFrom(t.blocks, e.blockNumber, first);
    assert first in affected;
    var (next, batch) := Observe(t, e);
    forall k ensures (k in affected ==> Get(next.states, k) == Some(Retracted))
                  && (k !in affected ==> Retracted !in Word(batch.updates, k)) {
      ObserveExactly(t, e, k);
    }
  }

  /** Without a conflict nothing is rolled back or retracted and no notice is raised. */
  lemma NoConflictNoRetraction(t: Tracker, e: NormalizedEvent, k: string)
    requires e.chain == t.chain && !Conflicts(t, e)
    ensures
      var (next, batch) := Observe(t, e);
      && batch.reorgNotice == None
      && Retracted !in Word(batch.updates, k)
      && (forall b :: b in t.blocks && b != e.blockNumber ==> b in next.blocks && next.blocks[b] == t.blocks[b])
      && next.blocks.Keys == t.blocks.Keys + {e.blockNumber}
  {
    ObserveExactly(t, e, k);
  }

  lemma StepKeepsRetracted(t: Tracker, i: Input, k: string)
    requires Get(t.states, k) == Some(Retracted)
    ensures Get(Step(t, i).states, k) == Some(Retracted)
    ensures Word(Emits(t, i), k) == []
  {
    match i
    case Seen(e) => if e.chain == t.chain { ObserveExactly(t, e, k); }
    case Noticed(n) => if n.chain == t.chain { ApplyNoticeExactly(t, n, k); }
  }

  /** Retracted is absorbing: nothing more is ever emitted for the key. */
  lemma {:induction false} RetractedIsAbsorbing(t: Tracker, inputs: seq<Input>, k: string)
    requires Get(t.states, k) == Some(Retracted)
    ensures Get(RunFrom(t, inputs).states, k) == Some(Retracted)
    ensures Word(Log(t, inputs), k) == []
  {
    if inputs != [] {
      var prior := inputs[..|inputs| - 1];
      RetractedIsAbsorbing(t, prior, k);
      StepKeepsRetracted(RunFrom(t, prior), inputs[|inputs| - 1], k);
      WordConcat(Log(t, prior), Emits(RunFrom(t, prior), inputs[|inputs| - 1]), k);
    }
  }

  lemma {:induction false} NoneAdmitted(states: States, proposals: seq<FinalityUpdate>)
    requires forall i :: 0 <= i < |proposals| ==> !Admits(states, proposals[i])
    ensures Accepted(states, proposals) == []
  {
    if proposals != [] {
      NoneAdmitted(states, proposals[..|proposals| - 1]);
    }
  }

  ghost predicate AllRetracted(t: Tracker, keys: seq<string>) {
    forall k :: k in keys ==> Get(t.states, k) == Some(Retracted)
  }

  lemma SpentNoticeIsSilent(t: Tracker, n: ReorgNotice)
    requires AllRetracted(t, n.affectedEventKeys)
    ensures ApplyNotice(t, n).1 == [] && ApplyNotice(t, n).0.states == t.states
  {
    NoneAdmitted(t.states, NoticeProposals(n));
  }

  lemma {:induction false} RunKeepsChain(t: Tracker, inputs: seq<Input>)
    ensures RunFrom(t, inputs).chain == t.chain && RunFrom(t, inputs).defaultDepth == t.defaultDepth
  {
    if inputs != [] {
      RunKeepsChain(t, inputs[..|inputs| - 1]);
    }
  }

  /** Reading back the tracker's own notice, at any later time, emits nothing and changes no
      state, although it drops the live blocks from the orphaned number on. */
  lemma OwnNoticeIsSilent(t: Tracker, e: NormalizedEvent, inputs: seq<Input>)
    requires Valid(t) && Observe(t, e).1.reorgNotice.Some?
    ensures
      var n := Observe(t, e).1.reorgNotice.value;
      var later := RunFrom(Observe(t, e).0, inputs);
      && ApplyNotice(later, n).1 == []
      && ApplyNotice(later, n).0.states == later.states
      && ApplyNotice(later, n).0.blocks == BlocksBelow(later.blocks, e.blockNumber)
  {
    ConflictRetractsExactly(t, e);
    var (next, batch) := Observe(t, e);
    var n := batch.reorgNotice.value;
    RunKeepsChain(next, inputs);
    forall k | k in n.affectedEventKeys ensures Get(RunFrom(next, inputs).states, k) == Some(Retracted) {
      RetractedIsAbsorbing(next, inputs, k);
    }
    SpentNoticeIsSilent(RunFrom(next, inputs), n);
  }

  /** The same holds for any notice once it has been applied. */
  lemma AppliedNoticeIsSilent(t: Tracker, n: ReorgNotice, inputs: seq<Input>)
    ensures
      var later := RunFrom(ApplyNotice(t, n).0, inputs);
      ApplyNotice(later, n).1 == [] && ApplyNotice(later, n).0.states == later.states
  {
    var next := ApplyNotice(t, n).0;
    RunKeepsChain(next, inputs);
    if n.chain == t.chain {
      forall k | k in n.affectedEventKeys ensures Get(RunFrom(next, inputs).states, k) == Some(Retracted) {
        ApplyNoticeExactly(t, n, k);
        RetractedIsAbsorbing(next, inputs, k);
      }
      SpentNoticeIsSilent(RunFrom(next, inputs), n);
    }
  }

  // ---- a retraction that comes first comes from a notice about an unseen key ----

  ghost predicate UnseenNotice(t: Tracker, inputs: seq<Input>, i: int, k: string) {
    && 0 <= i < |inputs|
    && inputs[i].Noticed?
    && inputs[i].notice.chain == t.chain
    && k in inputs[i].notice.affectedEventKeys
    && k !in RunFrom(t, inputs[..i]).states
  }

  /** An event never gives an unseen key of a valid tracker its first state as Retracted. */
  lemma EventDoesNotRetractUnseen(t: Tracker, e: NormalizedEvent, k: string)
    requires Valid(t) && k !in t.states
    ensures var w := Word(Emits(t, Seen(e)), k); w != [] ==> w[0] == Provisional
  {
    if e.chain == t.chain {
      ObserveExactly(t, e, k);
      assert !LiveFrom(t.blocks, e.blockNumber, k);
    }
  }

  lemma NoticeMentions(t: Tracker, n: ReorgNotice, k: string)
    requires Word(Emits(t, Noticed(n)), k) != []
    ensures n.chain == t.chain && k in n.affectedEventKeys
  {
    if n.chain == t.chain {
      ApplyNoticeExactly(t, n, k);
    }
  }

  ghost predicate StartsRetracted(w: seq<LifecycleState>) {
    w != [] && w[0] == Retracted
  }

  lemma UnseenNoticeEarlier(t: Tracker, inputs: seq<Input>, i: int, k: string)
    requires inputs != [] && UnseenNotice(t, inputs[..|inputs| - 1], i, k)
    ensures UnseenNotice(t, inputs, i, k)
  {
    assert inputs[..|inputs| - 1][..i] == inputs[..i];
  }

  lemma RetractedAtLast(t: Tracker, inputs: seq<Input>, k: string)
    requires inputs != [] && Valid(RunFrom(t, inputs[..|inputs| - 1])) && k !in RunFrom(t, inputs[..|inputs| - 1]).states
    requires StartsRetracted(Word(Emits(RunFrom(t, inputs[..|inputs| - 1]), inputs[|inputs| - 1]), k))
    ensures UnseenNotice(t, inputs, |inputs| - 1, k)
  {
    var last := |inputs| - 1;
    var before := RunFrom(t, inputs[..last]);
    if inputs[last].Seen? {
      EventDoesNotRetractUnseen(before, inputs[last].event, k);
    } else {
      NoticeMentions(before, inputs[last].notice, k);
      RunKeepsChain(t, inputs[..last]);
    }
  }

  lemma {:induction false} FirstRetractionFromNotice(chain: Chain, depth: U64, inputs: seq<Input>, k: string)
    ensures StartsRetracted(Word(Log(Fresh(chain, depth), inputs), k)) ==>
      exists i :: UnseenNotice(Fresh(chain, depth), inputs, i, k)
  {
    var t := Fresh(chain, depth);
    if inputs != [] && StartsRetracted(Word(Log(t, inputs), k)) {
      var prior := inputs[..|inputs| - 1];
      var before := RunFrom(t, prior);
      var earlier, latest := Word(Log(t, prior), k), Word(Emits(before, inputs[|inputs| - 1]), k);
      assert StartsRetracted(earlier + latest) by { LogWordStep(t, inputs, k); }
      if earlier != [] {
        assert StartsRetracted(earlier);
        FirstRetractionFromNotice(chain, depth, prior, k);
        var i :| UnseenNotice(t, prior, i, k);
        UnseenNoticeEarlier(t, inputs, i, k);
      } else {
        assert earlier + latest == latest;
        assert k !in before.states by { LifecycleOfEveryKey(chain, depth, prior, k); }
        assert Valid(before) by { ReachableIsValid(chain, depth, prior); }
        RetractedAtLast(t, inputs, k);
      }
    }
  }
}
