/** The circuit breaker shared by all external calls (crates/common/src/circuit_breaker.rs).

    Each method is one atomic step, so a run interleaves the admission checks and reports of any
    number of callers in any order. Times are readings of a monotonic clock. */
module CircuitBreaker {
  import opened Common

  /** `failureWindow` is part of the configuration but no step reads it. */
  datatype Config = Config(failureThreshold: nat, failureWindow: nat, timeout: nat, successThreshold: nat)

  datatype Phase = Closed | Open | HalfOpen

  datatype State = State(
    phase: Phase,
    failureCount: nat,
    successCount: nat,
    lastFailure: Option<int>,
    lastTransition: int)

  /** What callers do. A report may come from a call admitted long before. */
  datatype Event = Check(now: int) | Success(now: int) | Failure(now: int)

  /** What can be observed, oldest first. */
  datatype Entry = Admitted(at: int) | Rejected(at: int) | Reported(ok: bool, at: int) | Entered(phase: Phase, at: int)

  function ToClosed(s: State, now: int): State {
    s.(phase := Closed, failureCount := 0, successCount := 0, lastTransition := now)
  }

  function ToOpen(s: State, now: int): State {
    s.(phase := Open, successCount := 0, lastTransition := now)
  }

  function ToHalfOpen(s: State, now: int): State {
    s.(phase := HalfOpen, failureCount := 0, successCount := 0, lastTransition := now)
  }

  function CheckStep(c: Config, s: State, now: int): (State, bool) {
    match s.phase
    case Closed => (s, true)
    case Open => if now - s.lastTransition >= c.timeout then (ToHalfOpen(s, now), true) else (s, false)
    case HalfOpen => (s, true)
  }

  function SuccessStep(c: Config, s: State, now: int): State {
    match s.phase
    case HalfOpen =>
      var counted := s.(successCount := s.successCount + 1);
      if counted.successCount >= c.successThreshold then ToClosed(counted, now) else counted
    case Closed => s.(failureCount := 0, lastFailure := None)
    case Open => s
  }

  function FailureStep(c: Config, s: State, now: int): State {
    var noted := s.(lastFailure := Some(now));
    match s.phase
    case Closed =>
      var counted := noted.(failureCount := s.failureCount + 1);
      if counted.failureCount >= c.failureThreshold then ToOpen(counted, now) else counted
    case HalfOpen => ToOpen(noted, now)
    case Open => noted
  }

  function Step(c: Config, s: State, e: Event): State {
    match e
    case Check(now) => CheckStep(c, s, now).0
    case Success(now) => SuccessStep(c, s, now)
    case Failure(now) => FailureStep(c, s, now)
  }

  function Entering(before: State, after: State, now: int): seq<Entry> {
    if before.phase != after.phase then [Entered(after.phase, now)] else []
  }

  /** The entries one event adds: the transition into half-open precedes the admission it allows,
      every other transition follows the report that causes it. */
  function Observed(c: Config, s: State, e: Event): seq<Entry> {
    var next := Step(c, s, e);
    match e
    case Check(now) => Entering(s, next, now) + [if CheckStep(c, s, now).1 then Admitted(now) else Rejected(now)]
    case Success(now) => [Reported(true, now)] + Entering(s, next, now)
    case Failure(now) => [Reported(false, now)] + Entering(s, next, now)
  }

  class CircuitBreaker {
    const config: Config
    var state: Phase
    var failureCount: nat
    var successCount: nat
    var lastFailureTime: Option<int>
    var lastTransition: int

    function Value(): State
      reads this
    {
      State(state, failureCount, successCount, lastFailureTime, lastTransition)
    }

    constructor (config: Config, now: int)
      ensures this.config == config && Value() == Initial(now)
    {
      this.config := config;
      state, failureCount, successCount, lastFailureTime, lastTransition := Closed, 0, 0, None, now;
    }

    method TransitionToClosed(now: int)
      modifies this
      ensures Value() == ToClosed(old(Value()), now)
    {
      state, failureCount, successCount, lastTransition := Closed, 0, 0, now;
    }

    method TransitionToOpen(now: int)
      modifies this
      ensures Value() == ToOpen(old(Value()), now)
    {
      state, successCount, lastTransition := Open, 0, now;
    }

    method TransitionToHalfOpen(now: int)
      modifies this
      ensures Value() == ToHalfOpen(old(Value()), now)
    {
      state, failureCount, successCount, lastTransition := HalfOpen, 0, 0, now;
    }

    /** Rejects exactly while open and before the timeout has elapsed. */
    method CanAttempt(now: int) returns (allowed: bool)
      modifies this
      ensures Value() == Step(config, old(Value()), Check(now))
      ensures !allowed <==> old(state) == Open && now - old(lastTransition) < config.timeout
    {
      match state {
        case Closed =>
          return true;
        case Open =>
          if now - lastTransition >= config.timeout {
            TransitionToHalfOpen(now);
            return true;
          }
          return false;
        case HalfOpen =>
          return true;
      }
    }

    method OnSuccess(now: int)
      modifies this
      ensures Value() == Step(config, old(Value()), Success(now))
    {
      match state {
        case HalfOpen =>
          successCount := successCount + 1;
          if successCount >= config.successThreshold {
            TransitionToClosed(now);
          }
        case Closed =>
          failureCount := 0;
          lastFailureTime := None;
        case Open =>
      }
    }

    method OnFailure(now: int)
      modifies this
      ensures Value() == Step(config, old(Value()), Failure(now))
    {
      lastFailureTime := Some(now);
      match state {
        case Closed =>
          failureCount := failureCount + 1;
          if failureCount >= config.failureThreshold {
            TransitionToOpen(now);
          }
        case HalfOpen =>
          TransitionToOpen(now);
        case Open =>
      }
    }
  }

  // ---- runs ----

  function Initial(now: int): State {
    State(Closed, 0, 0, None, now)
  }

  function RunFrom(c: Config, s: State, events: seq<Event>): State {
    if events == [] then s
    else Step(c, RunFrom(c, s, events[..|events| - 1]), events[|events| - 1])
  }

  function Trace(c: Config, s: State, events: seq<Event>): seq<Entry> {
    if events == [] then []
    else
      var prior := events[..|events| - 1];
      Trace(c, s, prior) + Observed(c, RunFrom(c, s, prior), events[|events| - 1])
  }

  /** The failures reported since the last success report, read off the trace alone. A closing
      happens at a success report, so these are the failures since the last success or closing. */
  function FailuresInARow(trace: seq<Entry>): nat {
    if trace == [] then 0
    else
      var last := trace[|trace| - 1];
      var before := FailuresInARow(trace[..|trace| - 1]);
      if last.Reported? then (if last.ok then 0 else before + 1) else before
  }

  /** The reports since the breaker last became half-open. */
  function SinceHalfOpen(trace: seq<Entry>): seq<bool> {
    if trace == [] || (trace[|trace| - 1].Entered? && trace[|trace| - 1].phase == HalfOpen) then []
    else
      var last := trace[|trace| - 1];
      SinceHalfOpen(trace[..|trace| - 1]) + if last.Reported? then [last.ok] else []
  }

  function AtLeastOne(n: nat): nat {
    if n == 0 then 1 else n
  }

  /** Both counters say what the trace says, and stay below their thresholds; thresholds of 0 act as 1. */
  ghost predicate CountsMatch(c: Config, s: State, trace: seq<Entry>) {
    && (s.phase == Closed ==>
          s.failureCount == FailuresInARow(trace) < AtLeastOne(c.failureThreshold))
    && (s.phase == HalfOpen ==>
          && |SinceHalfOpen(trace)| == s.successCount < AtLeastOne(c.successThreshold)
          && forall i :: 0 <= i < |SinceHalfOpen(trace)| ==> SinceHalfOpen(trace)[i])
    && (s.phase != HalfOpen ==> s.successCount == 0)
  }

  lemma FailuresAfter(trace: seq<Entry>, entry: Entry)
    ensures FailuresInARow(trace + [entry])
         == if entry.Reported? then (if entry.ok then 0 else FailuresInARow(trace) + 1) else FailuresInARow(trace)
    ensures SinceHalfOpen(trace + [entry])
         == if entry.Entered? && entry.phase == HalfOpen then []
            else SinceHalfOpen(trace) + if entry.Reported? then [entry.ok] else []
  {
    assert (trace + [entry])[..|trace|] == trace;
  }

  lemma StepKeepsCounts(c: Config, s: State, trace: seq<Entry>, e: Event)
    requires CountsMatch(c, s, trace)
    ensures CountsMatch(c, Step(c, s, e), trace + Observed(c, s, e))
  {
    var seen := Observed(c, s, e);
    assert |seen| == 1 || |seen| == 2;
    FailuresAfter(trace, seen[0]);
    if |seen| == 2 {
      assert trace + seen == (trace + [seen[0]]) + [seen[1]];
      FailuresAfter(trace + [seen[0]], seen[1]);
    } else {
      assert trace + seen == trace + [seen[0]];
    }
  }

  /** Over every run, for any configuration and any interleaving of callers, closed means that the
      failure count is the current run of failures and below its threshold; half-open means that
      only successes, fewer than the threshold, were reported since entry. */
  lemma {:induction false} CountsTellTheTrace(c: Config, start: int, events: seq<Event>)
    ensures CountsMatch(c, RunFrom(c, Initial(start), events), Trace(c, Initial(start), events))
  {
    if events != [] {
      var prior := events[..|events| - 1];
      CountsTellTheTrace(c, start, prior);
      StepKeepsCounts(c, RunFrom(c, Initial(start), prior), Trace(c, Initial(start), prior), events[|events| - 1]);
    }
  }

  /** When and only when the breaker opens: a failure report completes the run of failures while
      closed, however far apart they are in time, or arrives while half-open. */
  lemma OpensExactly(c: Config, start: int, events: seq<Event>, e: Event)
    ensures
      var s := RunFrom(c, Initial(start), events);
      var streak := FailuresInARow(Trace(c, Initial(start), events));
      s.phase != Open && Step(c, s, e).phase == Open
      <==> e.Failure? && (s.phase == HalfOpen || (s.phase == Closed && streak + 1 >= c.failureThreshold))
  {
    CountsTellTheTrace(c, start, events);
  }

  /** When and only when it closes: the success report that completes the threshold since half-open. */
  lemma ClosesExactly(c: Config, start: int, events: seq<Event>, e: Event)
    ensures
      var s := RunFrom(c, Initial(start), events);
      var successes := |SinceHalfOpen(Trace(c, Initial(start), events))|;
      s.phase != Closed && Step(c, s, e).phase == Closed
      <==> e.Success? && s.phase == HalfOpen && successes + 1 >= c.successThreshold
  {
    CountsTellTheTrace(c, start, events);
  }

  ghost predicate AllBefore(events: seq<Event>, deadline: int) {
    forall i :: 0 <= i < |events| ==> events[i].now < deadline
  }

  ghost predicate NoneAdmitted(trace: seq<Entry>) {
    forall i :: 0 <= i < |trace| ==> !trace[i].Admitted?
  }

  /** Once open, nothing is admitted and nothing moves the breaker until the timeout has passed,
      whatever late reports still come in. */
  lemma {:induction false} OpenHoldsUntilTimeout(c: Config, s: State, events: seq<Event>)
    requires s.phase == Open && AllBefore(events, s.lastTransition + c.timeout)
    ensures
      var later := RunFrom(c, s, events);
      && later.phase == Open && later.lastTransition == s.lastTransition
      && NoneAdmitted(Trace(c, s, events))
  {
    if events != [] {
      var prior := events[..|events| - 1];
      assert AllBefore(prior, s.lastTransition + c.timeout);
      assert events[|events| - 1].now < s.lastTransition + c.timeout;
      OpenHoldsUntilTimeout(c, s, prior);
    }
  }

  /** The last entry of a trace that is a transition names the current phase. */
  function LastPhase(trace: seq<Entry>): Phase {
    if trace == [] then Closed
    else
      var last := trace[|trace| - 1];
      if last.Entered? then last.phase else LastPhase(trace[..|trace| - 1])
  }

  lemma LastPhaseAfter(trace: seq<Entry>, entry: Entry)
    ensures LastPhase(trace + [entry]) == if entry.Entered? then entry.phase else LastPhase(trace)
  {
    assert (trace + [entry])[..|trace|] == trace;
  }

  lemma LastPhaseAfterTwo(trace: seq<Entry>, a: Entry, b: Entry)
    ensures LastPhase(trace + [a, b])
         == if b.Entered? then b.phase else if a.Entered? then a.phase else LastPhase(trace)
  {
    LastPhaseAfter(trace, a);
    LastPhaseAfter(trace + [a], b);
    assert trace + [a, b] == (trace + [a]) + [b];
  }

  lemma StepTellsPhase(c: Config, s: State, trace: seq<Entry>, e: Event)
    requires s.phase == LastPhase(trace)
    ensures Step(c, s, e).phase == LastPhase(trace + Observed(c, s, e))
  {
    var seen := Observed(c, s, e);
    if |seen| == 2 {
      assert seen == [seen[0], seen[1]];
      LastPhaseAfterTwo(trace, seen[0], seen[1]);
    } else {
      assert seen == [seen[0]];
      LastPhaseAfter(trace, seen[0]);
    }
  }

  /** The trace's transitions always account for the current phase. */
  lemma {:induction false} TraceTellsPhase(c: Config, start: int, events: seq<Event>)
    ensures RunFrom(c, Initial(start), events).phase == LastPhase(Trace(c, Initial(start), events))
  {
    if events != [] {
      var prior := events[..|events| - 1];
      TraceTellsPhase(c, start, prior);
      StepTellsPhase(c, RunFrom(c, Initial(start), prior), Trace(c, Initial(start), prior), events[|events| - 1]);
    }
  }

  // ---- times, read off the trace ----

  /** The time of the last transition, or the start time if there was none. */
  function LastChange(trace: seq<Entry>, start: int): int {
    if trace == [] then start
    else
      var last := trace[|trace| - 1];
      if last.Entered? then last.at else LastChange(trace[..|trace| - 1], start)
  }

  /** The time of the last failure, unless a success was reported after it while closed. */
  function LastFailureTime(trace: seq<Entry>): Option<int> {
    if trace == [] then None
    else
      var prior, last := trace[..|trace| - 1], trace[|trace| - 1];
      if last.Reported? && !last.ok then Some(last.at)
      else if last.Reported? && LastPhase(prior) == Closed then None
      else LastFailureTime(prior)
  }

  lemma TimesAfter(trace: seq<Entry>, entry: Entry, start: int)
    ensures LastChange(trace + [entry], start) == if entry.Entered? then entry.at else LastChange(trace, start)
    ensures LastFailureTime(trace + [entry])
         == if entry.Reported? && !entry.ok then Some(entry.at)
            else if entry.Reported? && LastPhase(trace) == Closed then None
            else LastFailureTime(trace)
  {
    assert (trace + [entry])[..|trace|] == trace;
  }

  lemma TimesAfterTwo(trace: seq<Entry>, a: Entry, b: Entry, start: int)
    requires !(b.Reported? && b.ok)
    ensures LastChange(trace + [a, b], start)
         == if b.Entered? then b.at else if a.Entered? then a.at else LastChange(trace, start)
    ensures LastFailureTime(trace + [a, b])
         == if b.Reported? && !b.ok then Some(b.at)
            else if a.Reported? && !a.ok then Some(a.at)
            else if a.Reported? && LastPhase(trace) == Closed then None
            else LastFailureTime(trace)
  {
    assert trace + [a, b] == (trace + [a]) + [b];
    TimesAfter(trace, a, start);
    TimesAfter(trace + [a], b, start);
  }

  ghost predicate TimesTold(s: State, trace: seq<Entry>, start: int) {
    && s.phase == LastPhase(trace)
    && s.lastTransition == LastChange(trace, start)
    && s.lastFailure == LastFailureTime(trace)
  }

  lemma CheckTellsTimes(c: Config, s: State, trace: seq<Entry>, now: int, start: int)
    requires TimesTold(s, trace, start)
    ensures
      var next, longer := Step(c, s, Check(now)), trace + Observed(c, s, Check(now));
      next.lastTransition == LastChange(longer, start) && next.lastFailure == LastFailureTime(longer)
  {
    if s.phase == Open && now - s.lastTransition >= c.timeout {
      assert Observed(c, s, Check(now)) == [Entered(HalfOpen, now), Admitted(now)];
      TimesAfterTwo(trace, Entered(HalfOpen, now), Admitted(now), start);
    } else {
      var entry := if s.phase == Open then Rejected(now) else Admitted(now);
      assert Observed(c, s, Check(now)) == [entry];
      TimesAfter(trace, entry, start);
    }
  }

  lemma ReportTellsTimes(c: Config, s: State, trace: seq<Entry>, ok: bool, now: int, start: int)
    requires TimesTold(s, trace, start)
    ensures
      var e := if ok then Success(now) else Failure(now);
      var next, longer := Step(c, s, e), trace + Observed(c, s, e);
      next.lastTransition == LastChange(longer, start) && next.lastFailure == LastFailureTime(longer)
  {
    var e := if ok then Success(now) else Failure(now);
    var next := Step(c, s, e);
    if next.phase != s.phase {
      assert Observed(c, s, e) == [Reported(ok, now), Entered(next.phase, now)];
      TimesAfterTwo(trace, Reported(ok, now), Entered(next.phase, now), start);
    } else {
      assert Observed(c, s, e) == [Reported(ok, now)];
      TimesAfter(trace, Reported(ok, now), start);
    }
  }

  /** Over every run the stored times are those of the trace: the last transition, or the start time if
      there was none, and the last failure not followed by a success while closed. */
  lemma {:induction false} TraceTellsTimes(c: Config, start: int, events: seq<Event>)
    ensures
      var s, trace := RunFrom(c, Initial(start), events), Trace(c, Initial(start), events);
      s.lastTransition == LastChange(trace, start) && s.lastFailure == LastFailureTime(trace)
  {
    if events != [] {
      var prior := events[..|events| - 1];
      var s, trace := RunFrom(c, Initial(start), prior), Trace(c, Initial(start), prior);
      TraceTellsTimes(c, start, prior);
      TraceTellsPhase(c, start, prior);
      match events[|events| - 1]
      case Check(now) => CheckTellsTimes(c, s, trace, now, start);
      case Success(now) => ReportTellsTimes(c, s, trace, true, now, start);
      case Failure(now) => ReportTellsTimes(c, s, trace, false, now, start);
    }
  }

  /** Over every run a check is rejected exactly when the last transition in the trace is an opening
      less than the timeout ago. */
  lemma RejectedExactly(c: Config, start: int, events: seq<Event>, now: int)
    ensures
      var trace := Trace(c, Initial(start), events);
      Rejected(now) in Observed(c, RunFrom(c, Initial(start), events), Check(now))
      <==> LastPhase(trace) == Open && now - LastChange(trace, start) < c.timeout
  {
    TraceTellsPhase(c, start, events);
    TraceTellsTimes(c, start, events);
  }

  // ---- the failure window ----

  /** The times of the failures reported since the last success report, read off the trace. */
  function FailureTimes(trace: seq<Entry>): seq<int> {
    if trace == [] then []
    else
      var last := trace[|trace| - 1];
      var before := FailureTimes(trace[..|trace| - 1]);
      if last.Reported? then (if last.ok then [] else before + [last.at]) else before
  }

  lemma {:induction false} FailureTimesCount(trace: seq<Entry>)
    ensures |FailureTimes(trace)| == FailuresInARow(trace)
  {
    if trace != [] {
      FailureTimesCount(trace[..|trace| - 1]);
    }
  }

  function CountSince(times: seq<int>, from: int): nat {
    if times == [] then 0
    else CountSince(times[..|times| - 1], from) + if times[|times| - 1] >= from then 1 else 0
  }

  ghost predicate AllSince(times: seq<int>, from: int) {
    forall i :: 0 <= i < |times| ==> times[i] >= from
  }

  lemma {:induction false} CountSinceIsAll(times: seq<int>, from: int)
    ensures CountSince(times, from) <= |times|
    ensures CountSince(times, from) == |times| <==> AllSince(times, from)
  {
    if times != [] {
      var last := |times| - 1;
      CountSinceIsAll(times[..last], from);
      assert AllSince(times, from) <==> AllSince(times[..last], from) && times[last] >= from;
    }
  }

  /** The failures of the current run of failures, with one more at `now`. */
  function FailuresUpTo(c: Config, start: int, events: seq<Event>, now: int): seq<int> {
    FailureTimes(Trace(c, Initial(start), events)) + [now]
  }

  ghost predicate OpensAt(c: Config, start: int, events: seq<Event>, now: int) {
    var s := RunFrom(c, Initial(start), events);
    s.phase == Closed && Step(c, s, Failure(now)).phase == Open
  }

  /** The documented reading of the configuration: opening takes `failureThreshold` failures within
      the window that ends with the last of them. */
  ghost predicate WindowMet(c: Config, start: int, events: seq<Event>, now: int) {
    CountSince(FailuresUpTo(c, start, events, now), now - c.failureWindow) >= c.failureThreshold
  }

  ghost predicate ClockRuns(start: int, events: seq<Event>, now: int) {
    && (forall i :: 0 <= i < |events| ==> start <= events[i].now <= now)
    && forall i, j :: 0 <= i < j < |events| ==> events[i].now <= events[j].now
  }

  ghost predicate WindowAlwaysMet(c: Config) {
    forall start, events, now :: ClockRuns(start, events, now) && OpensAt(c, start, events, now) ==>
      WindowMet(c, start, events, now)
  }

  /** One opening from closed meets the window exactly when every failure in the row lies in it. */
  lemma WindowMetExactly(c: Config, start: int, events: seq<Event>, now: int)
    requires OpensAt(c, start, events, now) && c.failureThreshold >= 1
    ensures WindowMet(c, start, events, now)
       <==> AllSince(FailuresUpTo(c, start, events, now), now - c.failureWindow)
  {
    var times := FailuresUpTo(c, start, events, now);
    assert |times| == c.failureThreshold by {
      CountsTellTheTrace(c, start, events);
      FailureTimesCount(Trace(c, Initial(start), events));
    }
    CountSinceIsAll(times, now - c.failureWindow);
  }

  lemma RunLast(c: Config, s: State, events: seq<Event>, e: Event)
    ensures RunFrom(c, s, events + [e]) == Step(c, RunFrom(c, s, events), e)
    ensures Trace(c, s, events + [e]) == Trace(c, s, events) + Observed(c, RunFrom(c, s, events), e)
  {
    assert (events + [e])[..|events|] == events;
  }

  lemma FailureTimesLast(trace: seq<Entry>, at: int)
    ensures FailureTimes(trace + [Reported(false, at)]) == FailureTimes(trace) + [at]
  {
    assert (trace + [Reported(false, at)])[..|trace|] == trace;
  }

  /** n failures at time 0. */
  function SlowFailures(n: nat): (events: seq<Event>)
    ensures |events| == n && forall i :: 0 <= i < n ==> events[i] == Failure(0)
  {
    if n == 0 then [] else SlowFailures(n - 1) + [Failure(0)]
  }

  lemma ClosedFailure(c: Config, s: State, now: int)
    requires s.phase == Closed && s.failureCount + 1 < c.failureThreshold
    ensures
      var next := Step(c, s, Failure(now));
      next.phase == Closed && next.failureCount == s.failureCount + 1
    ensures Observed(c, s, Failure(now)) == [Reported(false, now)]
  {
  }

  lemma {:induction false} SlowFailuresStayClosed(c: Config, n: nat)
    requires n < c.failureThreshold
    ensures
      var s := RunFrom(c, Initial(0), SlowFailures(n));
      s.phase == Closed && s.failureCount == n
  {
    if n > 0 {
      SlowFailuresStayClosed(c, n - 1);
      RunLast(c, Initial(0), SlowFailures(n - 1), Failure(0));
      ClosedFailure(c, RunFrom(c, Initial(0), SlowFailures(n - 1)), 0);
    }
  }

  ghost predicate StartsAtZero(times: seq<int>) {
    times != [] && times[0] == 0
  }

  lemma {:induction false} SlowFailuresStartAtZero(c: Config, n: nat)
    requires 0 < n < c.failureThreshold
    ensures StartsAtZero(FailureTimes(Trace(c, Initial(0), SlowFailures(n))))
  {
    var prior := SlowFailures(n - 1);
    SlowFailuresStayClosed(c, n - 1);
    ClosedFailure(c, RunFrom(c, Initial(0), prior), 0);
    RunLast(c, Initial(0), prior, Failure(0));
    FailureTimesLast(Trace(c, Initial(0), prior), 0);
    if n == 1 {
      assert Trace(c, Initial(0), prior) == [];
    } else {
      SlowFailuresStartAtZero(c, n - 1);
    }
  }

  /** The failing run: all failures but the last at time 0, the last just after the window. */
  lemma SlowFailuresOpen(c: Config)
    requires c.failureThreshold >= 2
    ensures
      var events, now := SlowFailures(c.failureThreshold - 1), c.failureWindow + 1;
      ClockRuns(0, events, now) && OpensAt(c, 0, events, now) && !WindowMet(c, 0, events, now)
  {
    var n, now := c.failureThreshold - 1, c.failureWindow + 1;
    SlowFailuresStayClosed(c, n);
    SlowFailuresStartAtZero(c, n);
    assert OpensAt(c, 0, SlowFailures(n), now);
    WindowMetExactly(c, 0, SlowFailures(n), now);
    var times := FailuresUpTo(c, 0, SlowFailures(n), now);
    assert times[0] == 0;
  }

  /** Every opening from closed meets the documented window exactly when a single failure is enough to open. */
  lemma WindowAlwaysMetExactly(c: Config)
    ensures WindowAlwaysMet(c) <==> c.failureThreshold <= 1
  {
    if c.failureThreshold >= 2 {
      SlowFailuresOpen(c);
    } else {
      forall start, events, now | OpensAt(c, start, events, now) ensures WindowMet(c, start, events, now) {
        var times := FailuresUpTo(c, start, events, now);
        assert times[|times| - 1] == now;
      }
    }
  }

  /** The configured failure window changes nothing, in any run: failures count together however far
      apart they are. */
  lemma {:induction false} FailureWindowIsIgnored(c: Config, window: nat, s: State, events: seq<Event>)
    ensures
      var d := c.(failureWindow := window);
      RunFrom(d, s, events) == RunFrom(c, s, events) && Trace(d, s, events) == Trace(c, s, events)
  {
    if events != [] {
      FailureWindowIsIgnored(c, window, s, events[..|events| - 1]);
    }
  }
}
