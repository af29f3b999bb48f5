/** Log fetching in the EVM chain adapter: block windows, provider failover and de-duplication
    (crates/ingestion/src/adapter.rs).

    `plan` lists the filters sent for a window and `answer` gives each provider's reply to each
    request (None when the call fails). */
module EvmAdapter {
  import opened Common

  const MAX_U32: nat := 0xFFFF_FFFF

  /** What a log without topics has as its first topic: the zero hash. */
  const ZERO_HASH: string := "0x0000000000000000000000000000000000000000000000000000000000000000"

  datatype Log = Log(transactionHash: Option<string>, logIndex: Option<U64>, address: string, topics: seq<string>)

  datatype ProviderLog = ProviderLog(log: Log, providerIndex: nat)

  datatype LogKey = LogKey(transactionHash: string, logIndex: U64, address: string, topic0: string)

  datatype ProviderStatus = ProviderStatus(healthy: bool, consecutiveFailures: nat)

  datatype Window = Window(first: int, last: int)

  datatype Request = Request(window: Window, filter: string)

  datatype Pool = Pool(providers: seq<ProviderStatus>, active: nat)

  type Plan = Window -> seq<string>
  type Answers = (Request, nat) -> Option<seq<Log>>

  function SaturatingAdd(a: U64, b: U64): U64 {
    if a + b > MAX_U64 then MAX_U64 else a + b
  }

  function Min(a: U64, b: U64): U64 {
    if a < b then a else b
  }

  // ---- windows ----

  lemma MultiplesGrow(a: int, b: int, size: int)
    requires size >= 1 && a < b
    ensures a * size + size <= b * size
  {
    var more := b - a - 1;
    assert more * size >= 0;
    assert b * size == a * size + more * size + size;
  }

  lemma LastQuotient(n: int, size: int)
    requires size >= 1
    ensures n / size * size <= n < n / size * size + size
  {
  }

  lemma QuotientIs(n: int, size: int, q: int)
    requires size >= 1 && q * size <= n < q * size + size
    ensures n / size == q
  {
    LastQuotient(n, size);
    if n / size < q { MultiplesGrow(n / size, q, size); }
    if q < n / size { MultiplesGrow(q, n / size, size); }
  }

  function Windows(from: int, to: int, size: int): seq<Window>
    requires size >= 1
    decreases 1 + to - from
  {
    if from > to then []
    else
      var last := if from + size - 1 < to then from + size - 1 else to;
      [Window(from, last)] + Windows(last + 1, to, size)
  }

  lemma {:induction false} WindowAt(from: int, to: int, size: int, i: nat)
    requires size >= 1 && i < |Windows(from, to, size)|
    ensures
      var start := from + i * size;
      && start <= to
      && Windows(from, to, size)[i] == Window(start, if start + size - 1 < to then start + size - 1 else to)
    decreases 1 + to - from
  {
    if i > 0 {
      var last := if from + size - 1 < to then from + size - 1 else to;
      assert Windows(from, to, size)[i] == Windows(last + 1, to, size)[i - 1];
      WindowAt(last + 1, to, size, i - 1);
      assert last == from + size - 1;
      assert from + i * size == from + size + (i - 1) * size;
    }
  }

  lemma {:induction false} WindowCount(from: int, to: int, size: int)
    requires size >= 1
    ensures |Windows(from, to, size)| == if from > to then 0 else (to - from) / size + 1
    decreases 1 + to - from
  {
    if from <= to {
      if from + size - 1 < to {
        WindowCount(from + size, to, size);
        LastQuotient(to - from - size, size);
        QuotientIs(to - from, size, (to - from - size) / size + 1);
      } else {
        assert Windows(to + 1, to, size) == [];
        QuotientIs(to - from, size, 0);
      }
    }
  }

  /** The windows cut [from, to] into consecutive pieces with no gap and no overlap, none longer
      than `size`, and there are as many windows as the rounded-up quotient. */
  lemma WindowsPartition(from: int, to: int, size: int)
    requires size >= 1 && from <= to
    ensures
      var ws := Windows(from, to, size);
      && |ws| == (to - from + 1 + (size - 1)) / size
      && ws[0].first == from && ws[|ws| - 1].last == to
      && (forall i :: 0 <= i < |ws| ==> ws[i].first <= ws[i].last && ws[i].last - ws[i].first + 1 <= size)
      && (forall i :: 0 <= i < |ws| - 1 ==> ws[i + 1].first == ws[i].last + 1)
  {
    var ws := Windows(from, to, size);
    WindowCount(from, to, size);
    QuotientPlusOne(to - from, size);
    forall i | 0 <= i < |ws| ensures ws[i].first <= ws[i].last && ws[i].last - ws[i].first + 1 <= size {
      WindowAt(from, to, size, i);
    }
    forall i | 0 <= i < |ws| - 1 ensures ws[i + 1].first == ws[i].last + 1 {
      WindowAt(from, to, size, i);
      WindowAt(from, to, size, i + 1);
      assert from + (i + 1) * size == from + i * size + size;
    }
    WindowAt(from, to, size, |ws| - 1);
    LastQuotient(to - from, size);
  }

  lemma QuotientPlusOne(n: int, size: int)
    requires size >= 1 && n >= 0
    ensures (n + size) / size == n / size + 1
  {
    LastQuotient(n, size);
    QuotientIs(n + size, size, n / size + 1);
  }

  /** Block b lies in window number (b - from) / size and in no other. */
  lemma BlockLiesInOneWindow(from: int, to: int, size: int, b: int, i: nat)
    requires size >= 1 && from <= b <= to && i < |Windows(from, to, size)|
    ensures
      var w := Windows(from, to, size)[i];
      w.first <= b <= w.last <==> i == (b - from) / size
  {
    WindowAt(from, to, size, i);
    if from + i * size <= b < from + i * size + size {
      QuotientIs(b - from, size, i);
    } else {
      LastQuotient(b - from, size);
    }
  }

  /** The saturating additions pick the next window even at the top of the u64 range. */
  lemma NextWindow(start: U64, to: U64, size: U64)
    requires size >= 1 && start <= to
    ensures
      var last := Min(SaturatingAdd(start, SaturatingSub(size, 1)), to);
      && Windows(start, to, size) == [Window(start, last)] + Windows(last as int + 1, to, size)
      && (last == MAX_U64 ==> Windows(last as int + 1, to, size) == [])
      && (last < MAX_U64 ==> SaturatingAdd(last, 1) == last + 1)
  {
  }

  // ---- failover ----

  /** How many steps after the active provider `p` is tried. */
  function Distance(active: nat, p: nat, n: nat): nat
    requires active < n && p < n
  {
    if p >= active then p - active else p + n - active
  }

  function Failed(s: ProviderStatus): ProviderStatus {
    ProviderStatus(false, if s.consecutiveFailures < MAX_U32 then s.consecutiveFailures + 1 else MAX_U32)
  }

  ghost predicate ValidPool(pool: Pool) {
    pool.active < |pool.providers|
  }

  /** The pool after the first `k` providers in the cyclic order have failed. */
  function AfterFailures(pool: Pool, k: nat): (r: Pool)
    requires ValidPool(pool)
    ensures ValidPool(r) && |r.providers| == |pool.providers|
  {
    var n := |pool.providers|;
    Pool(seq(n, p requires 0 <= p < n =>
           if Distance(pool.active, p, n) < k then Failed(pool.providers[p]) else pool.providers[p]),
         pool.active)
  }

  /** The provider tried k steps after the active one. */
  function Tried(pool: Pool, k: nat): nat
    requires ValidPool(pool)
  {
    (pool.active + k) % |pool.providers|
  }

  lemma Wraps(x: nat, n: nat)
    requires 0 < n <= x < n + n
    ensures x % n == x - n
  {
    QuotientIs(x, n, 1);
  }

  lemma TriedDistance(pool: Pool, k: nat)
    requires ValidPool(pool) && k < |pool.providers|
    ensures Tried(pool, k) < |pool.providers|
    ensures Distance(pool.active, Tried(pool, k), |pool.providers|) == k
  {
    var n := |pool.providers|;
    if pool.active + k >= n {
      Wraps(pool.active + k, n);
    } else {
      assert (pool.active + k) % n == pool.active + k;
    }
  }

  /** The first provider in cyclic order from the active one that answers. */
  ghost predicate Serves(pool: Pool, r: Request, answer: Answers, p: nat)
    requires ValidPool(pool)
  {
    && p < |pool.providers|
    && answer(r, p).Some?
    && forall q :: 0 <= q < |pool.providers| && Distance(pool.active, q, |pool.providers|) < Distance(pool.active, p, |pool.providers|)
         ==> answer(r, q).None?
  }

  ghost predicate Refused(pool: Pool, r: Request, answer: Answers) {
    forall p :: 0 <= p < |pool.providers| ==> answer(r, p).None?
  }

  lemma DistanceInjective(active: nat, p: nat, q: nat, n: nat)
    requires active < n && p < n && q < n && Distance(active, p, n) == Distance(active, q, n)
    ensures p == q
  {
  }

  /** Either one definite provider serves the request or every provider refuses it. */
  lemma ServedOrRefused(pool: Pool, r: Request, answer: Answers)
    requires ValidPool(pool)
    ensures Refused(pool, r, answer) || exists p :: Serves(pool, r, answer, p)
    ensures forall p, q :: Serves(pool, r, answer, p) && Serves(pool, r, answer, q) ==> p == q
  {
    var n := |pool.providers|;
    if p :| 0 <= p < n && answer(r, p).Some? {
      NearestServes(pool, r, answer, p);
    }
    forall p, q | Serves(pool, r, answer, p) && Serves(pool, r, answer, q) ensures p == q {
      DistanceInjective(pool.active, p, q, n);
    }
  }

  lemma {:induction false} NearestServes(pool: Pool, r: Request, answer: Answers, p: nat)
    requires ValidPool(pool) && p < |pool.providers| && answer(r, p).Some?
    ensures exists q :: Serves(pool, r, answer, q)
    decreases Distance(pool.active, p, |pool.providers|)
  {
    var n := |pool.providers|;
    if q :| 0 <= q < n && Distance(pool.active, q, n) < Distance(pool.active, p, n) && answer(r, q).Some? {
      NearestServes(pool, r, answer, q);
    } else {
      assert Serves(pool, r, answer, p);
    }
  }

  ghost function Serving(pool: Pool, r: Request, answer: Answers): (p: nat)
    requires ValidPool(pool) && !Refused(pool, r, answer)
    ensures Serves(pool, r, answer, p)
  {
    ServedOrRefused(pool, r, answer);
    var p :| Serves(pool, r, answer, p);
    p
  }

  function Tag(logs: seq<Log>, p: nat): seq<ProviderLog> {
    seq(|logs|, i requires 0 <= i < |logs| => ProviderLog(logs[i], p))
  }

  /** One request: the providers before the serving one are marked failed, it becomes the active
      one and is marked healthy; if all refuse, all are marked and the active one stays. */
  ghost function Serve(pool: Pool, r: Request, answer: Answers): (out: (Pool, Option<seq<ProviderLog>>))
    requires ValidPool(pool)
    ensures ValidPool(out.0) && |out.0.providers| == |pool.providers|
  {
    if Refused(pool, r, answer) then (AfterFailures(pool, |pool.providers|), None)
    else
      var p := Serving(pool, r, answer);
      var marked := AfterFailures(pool, Distance(pool.active, p, |pool.providers|)).providers;
      (Pool(marked[p := ProviderStatus(true, 0)], p), Some(Tag(answer(r, p).value, p)))
  }

  lemma ServeBy(pool: Pool, r: Request, answer: Answers, p: nat)
    requires ValidPool(pool) && Serves(pool, r, answer, p)
    ensures
      var marked := AfterFailures(pool, Distance(pool.active, p, |pool.providers|)).providers;
      Serve(pool, r, answer) == (Pool(marked[p := ProviderStatus(true, 0)], p), Some(Tag(answer(r, p).value, p)))
  {
    ServedOrRefused(pool, r, answer);
  }

  /** What a failed call leaves: unhealthy, and one more failure in a row up to the u32 maximum. */
  predicate MarkedFailed(was: ProviderStatus, now: ProviderStatus) {
    !now.healthy && now.consecutiveFailures == if was.consecutiveFailures < 0xFFFF_FFFF then was.consecutiveFailures + 1 else 0xFFFF_FFFF
  }

  /** One request, provider by provider in the order of trying. The first `d` refuse and are marked
      failed; provider number d answers with the logs that are returned under its index, becomes the
      active one and is healthy without failures; the others are not asked. */
  lemma ServedExactly(pool: Pool, r: Request, answer: Answers, d: nat)
    requires ValidPool(pool) && d < |pool.providers|
    requires forall j :: 0 <= j < d ==> answer(r, Tried(pool, j)).None?
    requires answer(r, Tried(pool, d)).Some?
    ensures
      var (next, logs) := Serve(pool, r, answer);
      var p := Tried(pool, d);
      && next.active == p && next.providers[p] == ProviderStatus(true, 0)
      && (forall j :: 0 <= j < d ==> MarkedFailed(pool.providers[Tried(pool, j)], next.providers[Tried(pool, j)]))
      && (forall j :: d < j < |pool.providers| ==> next.providers[Tried(pool, j)] == pool.providers[Tried(pool, j)])
      && logs.Some? && |logs.value| == |answer(r, p).value|
      && forall i :: 0 <= i < |logs.value| ==> logs.value[i] == ProviderLog(answer(r, p).value[i], p)
  {
    var n, p := |pool.providers|, Tried(pool, d);
    TriedDistance(pool, d);
    forall q | 0 <= q < n && Distance(pool.active, q, n) < d ensures answer(r, q).None? {
      var j := Distance(pool.active, q, n);
      TriedDistance(pool, j);
      DistanceInjective(pool.active, q, Tried(pool, j), n);
    }
    ServeBy(pool, r, answer, p);
    forall j | 0 <= j < n ensures Distance(pool.active, Tried(pool, j), n) == j {
      TriedDistance(pool, j);
    }
  }

  /** If every provider refuses, all are marked failed and the active one stays. */
  lemma RefusedExactly(pool: Pool, r: Request, answer: Answers)
    requires ValidPool(pool) && forall p :: 0 <= p < |pool.providers| ==> answer(r, p).None?
    ensures
      var (next, logs) := Serve(pool, r, answer);
      && logs == None && next.active == pool.active
      && forall p :: 0 <= p < |pool.providers| ==> MarkedFailed(pool.providers[p], next.providers[p])
  {
    assert Refused(pool, r, answer);
  }

  /** The requests of one window are its filters in order. */
  lemma RequestsOfOne(window: Window, plan: Plan)
    ensures |Requests([window], plan)| == |plan(window)|
    ensures forall i :: 0 <= i < |plan(window)| ==> Requests([window], plan)[i] == Request(window, plan(window)[i])
  {
    assert [window][..0] == [];
  }

  /** One request serves as `Serve` says; several serve one after the other (see ServeAllConcat). */
  lemma ServeAllOfOne(pool: Pool, r: Request, answer: Answers)
    requires ValidPool(pool)
    ensures ServeAll(pool, [r], answer) == Serve(pool, r, answer)
    ensures ServeAll(pool, [], answer) == (pool, Some([]))
  {
    assert [r][..0] == [];
    var served := Serve(pool, r, answer);
    assert served.1.Some? ==> [] + served.1.value == served.1.value;
  }

  /** Requests in order, stopping at the first one that every provider refuses. */
  ghost function ServeAll(pool: Pool, requests: seq<Request>, answer: Answers): (out: (Pool, Option<seq<ProviderLog>>))
    requires ValidPool(pool)
    ensures ValidPool(out.0) && |out.0.providers| == |pool.providers|
  {
    if requests == [] then (pool, Some([]))
    else
      var prior := ServeAll(pool, requests[..|requests| - 1], answer);
      if prior.1.None? then prior
      else
        var next := Serve(prior.0, requests[|requests| - 1], answer);
        (next.0, if next.1.None? then None else Some(prior.1.value + next.1.value))
  }

  function RequestsIn(window: Window, filters: seq<string>): seq<Request> {
    seq(|filters|, i requires 0 <= i < |filters| => Request(window, filters[i]))
  }

  function Requests(windows: seq<Window>, plan: Plan): seq<Request> {
    if windows == [] then []
    else
      var last := windows[|windows| - 1];
      Requests(windows[..|windows| - 1], plan) + RequestsIn(last, plan(last))
  }

  lemma {:induction false} ServeAllConcat(pool: Pool, a: seq<Request>, b: seq<Request>, answer: Answers)
    requires ValidPool(pool)
    ensures
      var first := ServeAll(pool, a, answer);
      if first.1.None? then ServeAll(pool, a + b, answer) == first
      else
        var second := ServeAll(first.0, b, answer);
        ServeAll(pool, a + b, answer)
        == (second.0, if second.1.None? then None else Some(first.1.value + second.1.value))
  {
    if b == [] {
      assert a + b == a;
      var first := ServeAll(pool, a, answer);
      assert first.1.Some? ==> first.1.value + [] == first.1.value;
    } else {
      var prior, last := b[..|b| - 1], b[|b| - 1];
      assert (a + b)[..|a + b| - 1] == a + prior;
      ServeAllConcat(pool, a, prior, answer);
      var first := ServeAll(pool, a, answer);
      if first.1.Some? {
        var middle := ServeAll(first.0, prior, answer);
        if middle.1.Some? {
          var next := Serve(middle.0, last, answer);
          if next.1.Some? {
            ConcatAssociative(first.1.value, middle.1.value, next.1.value);
          }
        }
      }
    }
  }

  lemma {:induction false} RequestsConcat(a: seq<Window>, b: seq<Window>, plan: Plan)
    ensures Requests(a + b, plan) == Requests(a, plan) + Requests(b, plan)
  {
    if b == [] {
      assert a + b == a;
    } else {
      assert (a + b)[..|a + b| - 1] == a + b[..|b| - 1];
      RequestsConcat(a, b[..|b| - 1], plan);
    }
  }

  /** A fetch fails exactly when some request is refused by every provider. */
  lemma {:induction false} FailsExactlyWhenRefused(pool: Pool, requests: seq<Request>, answer: Answers)
    requires ValidPool(pool)
    ensures ServeAll(pool, requests, answer).1.None?
       <==> exists i :: 0 <= i < |requests| && Refused(pool, requests[i], answer)
  {
    if requests != [] {
      var last := |requests| - 1;
      var prior := requests[..last];
      FailsExactlyWhenRefused(pool, prior, answer);
      if i :| 0 <= i < |prior| && Refused(pool, prior[i], answer) {
        assert requests[i] == prior[i];
      }
      if i :| 0 <= i < |requests| && Refused(pool, requests[i], answer) && i != last {
        assert requests[i] == prior[i];
      }
    }
  }

  /** Serving all requests of `windows` from `start` leaves `pool` and `result`. */
  ghost predicate Fetches(start: Pool, windows: seq<Window>, plan: Plan, answer: Answers,
                          pool: Pool, result: Option<seq<ProviderLog>>)
    requires ValidPool(start)
  {
    ServeAll(start, Requests(windows, plan), answer) == (pool, result)
  }

  /** One more window served, or refused for good. */
  lemma WindowStep(start: Pool, pool: Pool, done: seq<Window>, window: Window, rest: seq<Window>,
                   plan: Plan, answer: Answers, collected: seq<ProviderLog>, next: Pool, batch: Option<seq<ProviderLog>>,
                   all: seq<Window>)
    requires ValidPool(start) && ValidPool(pool)
    requires all == done + ([window] + rest)
    requires Fetches(start, done, plan, answer, pool, Some(collected))
    requires (next, batch) == ServeAll(pool, RequestsIn(window, plan(window)), answer)
    ensures all == (done + [window]) + rest
    ensures batch.None? ==> Fetches(start, all, plan, answer, next, None)
    ensures batch.Some? ==> Fetches(start, done + [window], plan, answer, next, Some(collected + batch.value))
  {
    var more := RequestsIn(window, plan(window));
    ConcatAssociative(done, [window], rest);
    assert (done + [window])[..|done|] == done;
    assert Requests(done + [window], plan) == Requests(done, plan) + more;
    ServeAllConcat(start, Requests(done, plan), more, answer);
    RequestsConcat(done + [window], rest, plan);
    ServeAllConcat(start, Requests(done + [window], plan), Requests(rest, plan), answer);
  }

  // ---- de-duplication ----

  function KeyOf(log: Log): LogKey {
    LogKey(
      if log.transactionHash.Some? then log.transactionHash.value else "",
      if log.logIndex.Some? then log.logIndex.value else MAX_U64,
      log.address,
      if log.topics == [] then ZERO_HASH else log.topics[0])
  }

  predicate SameKeyBefore(logs: seq<ProviderLog>, i: nat)
    requires i < |logs|
  {
    exists j :: 0 <= j < i && KeyOf(logs[j].log) == KeyOf(logs[i].log)
  }

  /** The positions of the logs whose key has not occurred before, in order. */
  function FirstPositions(logs: seq<ProviderLog>): (ps: seq<nat>)
    ensures forall n :: 0 <= n < |ps| ==> ps[n] < |logs|
  {
    if logs == [] then []
    else
      var last := |logs| - 1;
      FirstPositions(logs[..last]) + if SameKeyBefore(logs, last) then [] else [last]
  }

  function AtPositions(logs: seq<ProviderLog>, ps: seq<nat>): seq<ProviderLog>
    requires forall n :: 0 <= n < |ps| ==> ps[n] < |logs|
  {
    seq(|ps|, n requires 0 <= n < |ps| => logs[ps[n]])
  }

  lemma {:induction false} FirstPositionsExactly(logs: seq<ProviderLog>)
    ensures
      var ps := FirstPositions(logs);
      && (forall m, n :: 0 <= m < n < |ps| ==> ps[m] < ps[n])
      && (forall i :: 0 <= i < |logs| ==> (i in ps <==> !SameKeyBefore(logs, i)))
  {
    if logs != [] {
      var last := |logs| - 1;
      var prior := logs[..last];
      FirstPositionsExactly(prior);
      forall i | 0 <= i < last ensures SameKeyBefore(prior, i) <==> SameKeyBefore(logs, i) {
        if j :| 0 <= j < i && KeyOf(logs[j].log) == KeyOf(logs[i].log) {
          assert KeyOf(prior[j].log) == KeyOf(prior[i].log);
        }
        if j :| 0 <= j < i && KeyOf(prior[j].log) == KeyOf(prior[i].log) {
          assert KeyOf(logs[j].log) == KeyOf(logs[i].log);
        }
      }
    }
  }

  ghost function Keys(logs: seq<ProviderLog>): set<LogKey> {
    set entry | entry in logs :: KeyOf(entry.log)
  }

  lemma KeysOfLast(logs: seq<ProviderLog>, entry: ProviderLog)
    ensures Keys(logs + [entry]) == Keys(logs) + {KeyOf(entry.log)}
  {
    assert forall e :: e in logs + [entry] <==> e in logs || e == entry;
  }

  lemma KeysIndexed(logs: seq<ProviderLog>, key: LogKey)
    ensures key in Keys(logs) <==> exists n :: 0 <= n < |logs| && KeyOf(logs[n].log) == key
  {
    if n :| 0 <= n < |logs| && KeyOf(logs[n].log) == key {
      assert logs[n] in logs;
    }
  }

  function Deduped(logs: seq<ProviderLog>): seq<ProviderLog> {
    AtPositions(logs, FirstPositions(logs))
  }

  lemma DedupedStep(logs: seq<ProviderLog>, entry: ProviderLog)
    ensures Deduped(logs + [entry]) == if KeyOf(entry.log) in Keys(logs) then Deduped(logs) else Deduped(logs) + [entry]
  {
    var all := logs + [entry];
    assert all[..|logs|] == logs;
    assert SameKeyBefore(all, |logs|) <==> KeyOf(entry.log) in Keys(logs) by {
      KeysIndexed(logs, KeyOf(entry.log));
      if j :| 0 <= j < |logs| && KeyOf(all[j].log) == KeyOf(all[|logs|].log) {
        assert KeyOf(logs[j].log) == KeyOf(entry.log);
      }
      if j :| 0 <= j < |logs| && KeyOf(logs[j].log) == KeyOf(entry.log) {
        assert KeyOf(all[j].log) == KeyOf(all[|logs|].log);
      }
    }
  }

  lemma {:induction false} FirstOfKey(logs: seq<ProviderLog>, i: nat) returns (j: nat)
    requires i < |logs|
    ensures j <= i && KeyOf(logs[j].log) == KeyOf(logs[i].log) && !SameKeyBefore(logs, j)
    decreases i
  {
    if SameKeyBefore(logs, i) {
      var k :| 0 <= k < i && KeyOf(logs[k].log) == KeyOf(logs[i].log);
      j := FirstOfKey(logs, k);
    } else {
      j := i;
    }
  }

  /** De-duplication keeps, in the original order, exactly the logs whose key has not occurred
      before: no key twice, and no key lost. */
  lemma DedupedExactly(logs: seq<ProviderLog>)
    ensures
      var ps := FirstPositions(logs);
      && Deduped(logs) == AtPositions(logs, ps)
      && (forall m, n :: 0 <= m < n < |ps| ==> ps[m] < ps[n])
      && (forall i :: 0 <= i < |logs| ==> (i in ps <==> !SameKeyBefore(logs, i)))
    ensures forall m, n :: 0 <= m < n < |Deduped(logs)| ==> KeyOf(Deduped(logs)[m].log) != KeyOf(Deduped(logs)[n].log)
    ensures forall i :: 0 <= i < |logs| ==> KeyOf(logs[i].log) in Keys(Deduped(logs))
  {
    var ps, kept := FirstPositions(logs), Deduped(logs);
    FirstPositionsExactly(logs);
    forall m, n | 0 <= m < n < |kept| ensures KeyOf(kept[m].log) != KeyOf(kept[n].log) {
      assert ps[n] in ps;
      assert !SameKeyBefore(logs, ps[n]);
    }
    forall i | 0 <= i < |logs| ensures KeyOf(logs[i].log) in Keys(kept) {
      var j := FirstOfKey(logs, i);
      var n :| 0 <= n < |ps| && ps[n] == j;
      assert kept[n] == logs[j] && kept[n] in kept;
    }
  }

  /** The two logs agree in transaction hash, log index, address and first topic, where a missing one counts
      as the empty text, the largest index or the zero hash. */
  predicate SameLog(a: Log, b: Log) {
    && (if a.transactionHash.Some? then a.transactionHash.value else "")
       == (if b.transactionHash.Some? then b.transactionHash.value else "")
    && (if a.logIndex.Some? then a.logIndex.value else 0xFFFF_FFFF_FFFF_FFFF)
       == (if b.logIndex.Some? then b.logIndex.value else 0xFFFF_FFFF_FFFF_FFFF)
    && a.address == b.address
    && (if |a.topics| > 0 then a.topics[0] else ZERO_HASH) == (if |b.topics| > 0 then b.topics[0] else ZERO_HASH)
  }

  /** `kept` is `logs` without every log that is the same as an earlier one, in the same order. */
  ghost predicate WithoutRepeats(logs: seq<ProviderLog>, kept: seq<ProviderLog>) {
    exists ps: seq<nat> :: PicksFirsts(logs, kept, ps)
  }

  ghost predicate PicksFirsts(logs: seq<ProviderLog>, kept: seq<ProviderLog>, ps: seq<nat>) {
    && |ps| == |kept|
    && (forall n :: 0 <= n < |ps| ==> ps[n] < |logs| && kept[n] == logs[ps[n]])
    && (forall m, n :: 0 <= m < n < |ps| ==> ps[m] < ps[n])
    && (forall i :: 0 <= i < |logs| ==> (i in ps <==> forall j :: 0 <= j < i ==> !SameLog(logs[j].log, logs[i].log)))
  }

  lemma SameLogExactly(a: Log, b: Log)
    ensures SameLog(a, b) <==> KeyOf(a) == KeyOf(b)
  {
  }

  lemma DedupedWithoutRepeats(logs: seq<ProviderLog>)
    ensures WithoutRepeats(logs, Deduped(logs))
  {
    var ps := FirstPositions(logs);
    DedupedExactly(logs);
    forall i | 0 <= i < |logs|
      ensures i in ps <==> forall j :: 0 <= j < i ==> !SameLog(logs[j].log, logs[i].log)
    {
      forall j | 0 <= j < i ensures SameLog(logs[j].log, logs[i].log) <==> KeyOf(logs[j].log) == KeyOf(logs[i].log) {
        SameLogExactly(logs[j].log, logs[i].log);
      }
    }
    assert PicksFirsts(logs, Deduped(logs), ps);
  }

  method DedupeProviderLogs(logs: seq<ProviderLog>) returns (deduped: seq<ProviderLog>)
    ensures deduped == Deduped(logs)
    ensures WithoutRepeats(logs, deduped)
  {
    var seen: set<LogKey> := {};
    deduped := [];
    for i := 0 to |logs|
      invariant seen == Keys(logs[..i])
      invariant deduped == Deduped(logs[..i])
    {
      var key := KeyOf(logs[i].log);
      assert logs[..i + 1] == logs[..i] + [logs[i]];
      KeysOfLast(logs[..i], logs[i]);
      DedupedStep(logs[..i], logs[i]);
      if key !in seen {
        seen := seen + {key};
        deduped := deduped + [logs[i]];
      }
    }
    assert logs[..|logs|] == logs;
    DedupedWithoutRepeats(logs);
  }

  // ---- the adapter ----

  class EvmChainAdapter {
    var providers: seq<ProviderStatus>
    var activeProviderIndex: nat
    const logBlockRangeSize: U64

    ghost predicate Valid()
      reads this
    {
      activeProviderIndex < |providers|
    }

    function Value(): Pool
      reads this
    {
      Pool(providers, activeProviderIndex)
    }

    /** The number of connected providers is at least one, or construction fails in the source. */
    constructor (count: nat, rangeSize: U64)
      requires count > 0
      ensures Valid() && logBlockRangeSize == rangeSize
      ensures Value() == Pool(seq(count, _ => ProviderStatus(true, 0)), 0)
    {
      providers := seq(count, _ => ProviderStatus(true, 0));
      activeProviderIndex := 0;
      logBlockRangeSize := rangeSize;
    }

    method FetchLogsWithFailover(r: Request, answer: Answers) returns (logs: Option<seq<ProviderLog>>)
      requires Valid()
      modifies this
      ensures Valid()
      ensures (Value(), logs) == Serve(old(Value()), r, answer)
    {
      ghost var pool := Value();
      var n := |providers|;
      for offset := 0 to n
        invariant Value() == AfterFailures(pool, offset)
        invariant forall p :: 0 <= p < n && Distance(pool.active, p, n) < offset ==> answer(r, p).None?
      {
        var idx := (activeProviderIndex + offset) % n;
        TriedDistance(pool, offset);
        var reply := answer(r, idx);
        if reply.Some? {
          providers := providers[idx := ProviderStatus(true, 0)];
          activeProviderIndex := idx;
          ServeBy(pool, r, answer, idx);
          return Some(Tag(reply.value, idx));
        }
        OneMoreFailure(pool, offset, idx);
        providers := providers[idx := Failed(providers[idx])];
      }
      return None;
    }

    lemma OneMoreFailure(pool: Pool, k: nat, idx: nat)
      requires ValidPool(pool) && idx < |pool.providers| && Distance(pool.active, idx, |pool.providers|) == k
      ensures
        var before := AfterFailures(pool, k).providers;
        && before[idx] == pool.providers[idx]
        && AfterFailures(pool, k + 1).providers == before[idx := Failed(before[idx])]
    {
    }

    /** All requests of one window: the oracle filters, then the flash-loan filters. */
    method FetchWindow(window: Window, plan: Plan, answer: Answers) returns (logs: Option<seq<ProviderLog>>)
      requires Valid()
      modifies this
      ensures Valid()
      ensures (Value(), logs) == ServeAll(old(Value()), RequestsIn(window, plan(window)), answer)
    {
      var filters := plan(window);
      ghost var requests := RequestsIn(window, filters);
      var collected := [];
      for i := 0 to |filters|
        invariant Valid()
        invariant (Value(), Some(collected)) == ServeAll(old(Value()), requests[..i], answer)
      {
        assert requests[..i + 1][..i] == requests[..i];
        var batch := FetchLogsWithFailover(Request(window, filters[i]), answer);
        if batch.None? {
          assert requests == requests[..i + 1] + requests[i + 1..];
          ServeAllConcat(old(Value()), requests[..i + 1], requests[i + 1..], answer);
          return None;
        }
        collected := collected + batch.value;
      }
      assert requests[..|filters|] == requests;
      return Some(collected);
    }

    /** Queries the windows that partition [from, to], in order, for every pair of u64 bounds, and
        de-duplicates what they return. */
    method FetchLogsInRange(from: U64, to: U64, plan: Plan, answer: Answers) returns (logs: Option<seq<ProviderLog>>)
      requires Valid()
      modifies this
      ensures Valid()
      ensures
        var (pool, fetched) := ServeAll(old(Value()), Requests(Windows(from, to, Max(logBlockRangeSize, 1)), plan), answer);
        && Value() == pool
        && logs == (if fetched.None? then None else Some(Deduped(fetched.value)))
        && (logs.Some? ==> WithoutRepeats(fetched.value, logs.value))
    {
      var fetched := FetchWindows(from, to, plan, answer);
      if fetched.None? {
        return None;
      }
      var deduped := DedupeProviderLogs(fetched.value);
      return Some(deduped);
    }

    method FetchWindows(from: U64, to: U64, plan: Plan, answer: Answers) returns (logs: Option<seq<ProviderLog>>)
      requires Valid()
      modifies this
      ensures Valid()
      ensures Fetches(old(Value()), Windows(from, to, Max(logBlockRangeSize, 1)), plan, answer, Value(), logs)
    {
      ghost var start := Value();
      var collected := [];
      var chunkStart := from;
      var chunkSize := Max(logBlockRangeSize, 1);
      ghost var done: seq<Window> := [];
      ghost var rest := Windows(from, to, chunkSize);
      ghost var all := rest;
      while chunkStart <= to
        invariant Valid()
        invariant all == done + rest
        invariant rest == Windows(chunkStart, to, chunkSize)
        invariant Fetches(start, done, plan, answer, Value(), Some(collected))
        decreases 1 + to - chunkStart
      {
        var chunkEnd := Min(SaturatingAdd(chunkStart, SaturatingSub(chunkSize, 1)), to);
        var window := Window(chunkStart, chunkEnd);
        NextWindow(chunkStart, to, chunkSize);
        ghost var after := Windows(chunkEnd as int + 1, to, chunkSize);
        ghost var pool := Value();
        var batch := FetchWindow(window, plan, answer);
        WindowStep(start, pool, done, window, after, plan, answer, collected, Value(), batch, all);
        done, rest := done + [window], after;
        if batch.None? {
          return None;
        }
        collected := collected + batch.value;
        if chunkEnd == MAX_U64 {
          break;
        }
        chunkStart := SaturatingAdd(chunkEnd, 1);
      }
      assert rest == [];
      assert all == done;
      return Some(collected);
    }
  }
}
