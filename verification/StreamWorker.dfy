/** Duplicate-quote suppression and the market median in the stream worker
    (apps/indexer/src/stream_worker.rs). Finite prices are modelled as reals. */
module StreamWorker {
  import opened Common

  const DEFAULT_GEMINI_WINDOW_MS: int := 250
  const MAX_I64: int := 0x7FFF_FFFF_FFFF_FFFF

  datatype Float = Finite(value: real) | NotFinite

  datatype FeedEvent = FeedEvent(eventType: string, price: Option<Float>, observedAtMs: int)

  datatype StreamConfig = StreamConfig(dedupeWindowMs: Option<U64>, profile: string, parserName: string)

  datatype QuoteState = QuoteState(lastPrice: Option<real>, lastEmittedAtMs: Option<int>)

  // ---- duplicate quotes ----

  function WindowMs(config: StreamConfig): Option<U64> {
    if config.dedupeWindowMs.Some? then
      if config.dedupeWindowMs.value > 0 then config.dedupeWindowMs else None
    else if config.profile == "live" && config.parserName == "gemini_marketdata_v1" then Some(DEFAULT_GEMINI_WINDOW_MS)
    else None
  }

  /** The window as a signed number of milliseconds. */
  function SignedWindow(window: U64): int {
    if window <= MAX_I64 then window else MAX_I64
  }

  predicate IsValidPrice(price: Option<Float>) {
    price.Some? && price.value.Finite? && price.value.value > 0.0
  }

  predicate IsValidQuote(e: FeedEvent) {
    e.eventType == "quote" && IsValidPrice(e.price)
  }

  predicate RepeatsWithin(state: QuoteState, price: real, at: int, window: U64) {
    && state.lastPrice == Some(price)
    && state.lastEmittedAtMs.Some?
    && 0 <= at - state.lastEmittedAtMs.value < SignedWindow(window)
  }

  function SkipStep(config: StreamConfig, e: FeedEvent, state: QuoteState): (bool, QuoteState) {
    var window := WindowMs(config);
    if window.None? || !IsValidQuote(e) then (false, state)
    else
      var price := e.price.value.value;
      if RepeatsWithin(state, price, e.observedAtMs, window.value) then (true, state)
      else (false, QuoteState(Some(price), Some(e.observedAtMs)))
  }

  class RecentQuotes {
    var lastPrice: Option<real>
    var lastEmittedAtMs: Option<int>

    function Value(): QuoteState
      reads this
    {
      QuoteState(lastPrice, lastEmittedAtMs)
    }

    constructor ()
      ensures Value() == QuoteState(None, None)
    {
      lastPrice, lastEmittedAtMs := None, None;
    }

    method ShouldSkipDuplicateQuote(config: StreamConfig, e: FeedEvent) returns (skip: bool)
      modifies this
      ensures (skip, Value()) == SkipStep(config, e, old(Value()))
    {
      var window := WindowMs(config);
      if window.None? {
        return false;
      }
      if e.eventType != "quote" {
        return false;
      }
      if !IsValidPrice(e.price) {
        return false;
      }
      var price := e.price.value.value;
      skip := false;
      if lastPrice == Some(price) && lastEmittedAtMs.Some? && e.observedAtMs >= lastEmittedAtMs.value {
        skip := e.observedAtMs - lastEmittedAtMs.value < SignedWindow(window.value);
      }
      if skip {
        return true;
      }
      lastPrice, lastEmittedAtMs := Some(price), Some(e.observedAtMs);
      return false;
    }
  }

  function StateAfter(config: StreamConfig, events: seq<FeedEvent>): QuoteState {
    if events == [] then QuoteState(None, None)
    else SkipStep(config, events[|events| - 1], StateAfter(config, events[..|events| - 1])).1
  }

  /** The events that are not skipped. */
  function Emitted(config: StreamConfig, events: seq<FeedEvent>): seq<FeedEvent> {
    if events == [] then []
    else
      var prior, last := events[..|events| - 1], events[|events| - 1];
      if SkipStep(config, last, StateAfter(config, prior)).0 then Emitted(config, prior)
      else Emitted(config, prior) + [last]
  }

  function ValidQuotes(events: seq<FeedEvent>): (quotes: seq<FeedEvent>)
    ensures forall i :: 0 <= i < |quotes| ==> IsValidQuote(quotes[i])
  {
    if events == [] then []
    else
      var last := events[|events| - 1];
      ValidQuotes(events[..|events| - 1]) + if IsValidQuote(last) then [last] else []
  }

  function Prices(events: seq<FeedEvent>): seq<real> {
    var quotes := ValidQuotes(events);
    seq(|quotes|, i requires 0 <= i < |quotes| => quotes[i].price.value.value)
  }

  /** The list with every run of equal neighbours reduced to one. */
  function Collapse(prices: seq<real>): seq<real> {
    if |prices| <= 1 then prices
    else
      var prior := prices[..|prices| - 1];
      if prices[|prices| - 1] == prior[|prior| - 1] then Collapse(prior)
      else Collapse(prior) + [prices[|prices| - 1]]
  }

  lemma PricesOfLast(events: seq<FeedEvent>, e: FeedEvent)
    ensures Prices(events + [e]) == Prices(events) + if IsValidQuote(e) then [e.price.value.value] else []
  {
    assert (events + [e])[..|events|] == events;
  }

  lemma CollapseOfLast(prices: seq<real>, p: real)
    ensures Collapse(prices + [p])
         == if prices != [] && prices[|prices| - 1] == p then Collapse(prices) else Collapse(prices) + [p]
  {
    assert (prices + [p])[..|prices|] == prices;
  }

  function LastOf(prices: seq<real>): Option<real> {
    if prices == [] then None else Some(prices[|prices| - 1])
  }

  lemma CollapseTogether(a: seq<real>, b: seq<real>, p: real)
    requires Collapse(a) == Collapse(b) && LastOf(a) == LastOf(b)
    ensures Collapse(a + [p]) == Collapse(b + [p]) && LastOf(a + [p]) == LastOf(b + [p]) == Some(p)
    ensures LastOf(b) == Some(p) ==> Collapse(a) == Collapse(b + [p])
  {
    CollapseOfLast(a, p);
    CollapseOfLast(b, p);
  }

  lemma EmittedAfter(config: StreamConfig, prior: seq<FeedEvent>, e: FeedEvent)
    ensures
      var (skip, next) := SkipStep(config, e, StateAfter(config, prior));
      && StateAfter(config, prior + [e]) == next
      && Emitted(config, prior + [e]) == (if skip then Emitted(config, prior) else Emitted(config, prior) + [e])
  {
    assert (prior + [e])[..|prior|] == prior;
  }

  ghost predicate SamePriceChanges(a: seq<real>, b: seq<real>) {
    Collapse(a) == Collapse(b) && LastOf(a) == LastOf(b)
  }

  lemma PriceChangesAfter(config: StreamConfig, prior: seq<FeedEvent>, e: FeedEvent)
    requires SamePriceChanges(Prices(Emitted(config, prior)), Prices(prior))
    requires WindowMs(config).Some? ==> StateAfter(config, prior).lastPrice == LastOf(Prices(prior))
    ensures SamePriceChanges(Prices(Emitted(config, prior + [e])), Prices(prior + [e]))
    ensures WindowMs(config).Some? ==> StateAfter(config, prior + [e]).lastPrice == LastOf(Prices(prior + [e]))
  {
    EmittedAfter(config, prior, e);
    PricesOfLast(prior, e);
    PricesOfLast(Emitted(config, prior), e);
    var a, b := Prices(Emitted(config, prior)), Prices(prior);
    if IsValidQuote(e) {
      CollapseTogether(a, b, e.price.value.value);
    } else {
      assert a + [] == a && b + [] == b;
    }
  }

  /** Skipping loses no price change: collapsing equal neighbours gives the same list for the emitted
      prices as for all of them, for any events and any time stamps. */
  lemma {:induction false} NoPriceChangeIsLost(config: StreamConfig, events: seq<FeedEvent>)
    ensures SamePriceChanges(Prices(Emitted(config, events)), Prices(events))
    ensures WindowMs(config).Some? ==> StateAfter(config, events).lastPrice == LastOf(Prices(events))
  {
    if events != [] {
      var prior, last := events[..|events| - 1], events[|events| - 1];
      NoPriceChangeIsLost(config, prior);
      PriceChangesAfter(config, prior, last);
      assert events == prior + [last];
    }
  }

  /** Two emitted quotes in a row with the same price are a window apart, or the clock went back. */
  ghost predicate Spaced(quotes: seq<FeedEvent>, window: U64) {
    forall i :: 0 <= i < |quotes| - 1 ==> ApartOrBack(quotes[i], quotes[i + 1], window)
  }

  predicate ApartOrBack(q: FeedEvent, r: FeedEvent, window: U64) {
    q.price == r.price ==>
      r.observedAtMs - q.observedAtMs >= SignedWindow(window) || r.observedAtMs < q.observedAtMs
  }

  lemma SpacedAfter(quotes: seq<FeedEvent>, e: FeedEvent, window: U64)
    requires Spaced(quotes, window)
    requires quotes != [] ==> ApartOrBack(quotes[|quotes| - 1], e, window)
    ensures Spaced(quotes + [e], window)
  {
  }

  /** The remembered quote is the last valid one that was emitted. */
  ghost predicate Remembers(state: QuoteState, quotes: seq<FeedEvent>) {
    if quotes == [] then state == QuoteState(None, None)
    else
      var last := quotes[|quotes| - 1];
      && IsValidQuote(last)
      && state == QuoteState(Some(last.price.value.value), Some(last.observedAtMs))
  }

  lemma {:induction false} EqualPricesAreSpaced(config: StreamConfig, events: seq<FeedEvent>)
    requires WindowMs(config).Some?
    ensures Spaced(ValidQuotes(Emitted(config, events)), WindowMs(config).value)
    ensures Remembers(StateAfter(config, events), ValidQuotes(Emitted(config, events)))
  {
    if events != [] {
      var prior, last := events[..|events| - 1], events[|events| - 1];
      EqualPricesAreSpaced(config, prior);
      var emitted := Emitted(config, prior);
      var quotes := ValidQuotes(emitted);
      if !SkipStep(config, last, StateAfter(config, prior)).0 {
        ValidQuotesOfLast(emitted, last);
        if IsValidQuote(last) {
          SpacedAfter(quotes, last, WindowMs(config).value);
        }
      }
    }
  }

  /** The window in milliseconds: a configured 0 turns suppression off, without a configured one it is on
      for live Gemini market data only, and it is capped at the largest i64. */
  ghost predicate HasWindow(config: StreamConfig, window: int) {
    match config.dedupeWindowMs
    case Some(ms) => ms > 0 && window == if ms <= 0x7FFF_FFFF_FFFF_FFFF then ms else 0x7FFF_FFFF_FFFF_FFFF
    case None => config.profile == "live" && config.parserName == "gemini_marketdata_v1" && window == 250
  }

  lemma WindowExactly(config: StreamConfig, window: int)
    ensures HasWindow(config, window) <==> WindowMs(config).Some? && SignedWindow(WindowMs(config).value) == window
  {
  }

  /** Event i is the last one emitted that is a quote with a finite positive price. */
  ghost predicate LastQuoteAt(emitted: seq<FeedEvent>, i: int) {
    && 0 <= i < |emitted| && PricedQuote(emitted[i])
    && forall j :: i < j < |emitted| ==> !PricedQuote(emitted[j])
  }

  ghost predicate PricedQuote(e: FeedEvent) {
    e.eventType == "quote" && e.price.Some? && e.price.value.Finite? && e.price.value.value > 0.0
  }

  lemma OtherEventLast(emitted: seq<FeedEvent>, e: FeedEvent, i: int)
    requires !PricedQuote(e)
    ensures LastQuoteAt(emitted + [e], i) <==> LastQuoteAt(emitted, i)
  {
    if LastQuoteAt(emitted + [e], i) {
      assert forall j :: 0 <= j < |emitted| ==> emitted[j] == (emitted + [e])[j];
    }
  }

  lemma {:induction false} LastQuoteExactly(emitted: seq<FeedEvent>)
    ensures
      var quotes := ValidQuotes(emitted);
      && (forall i :: LastQuoteAt(emitted, i) ==> quotes != [] && quotes[|quotes| - 1] == emitted[i])
      && (quotes != [] ==> exists i :: LastQuoteAt(emitted, i))
  {
    if emitted != [] {
      var last := |emitted| - 1;
      LastQuoteExactly(emitted[..last]);
      if IsValidQuote(emitted[last]) {
        assert LastQuoteAt(emitted, last);
      } else {
        assert ValidQuotes(emitted) == ValidQuotes(emitted[..last]);
        forall i ensures LastQuoteAt(emitted, i) <==> LastQuoteAt(emitted[..last], i) {
          OtherEventLast(emitted[..last], emitted[last], i);
          assert emitted == emitted[..last] + [emitted[last]];
        }
      }
    }
  }

  lemma SkippedByQuotes(config: StreamConfig, events: seq<FeedEvent>, e: FeedEvent)
    ensures
      var quotes := ValidQuotes(Emitted(config, events));
      SkipStep(config, e, StateAfter(config, events)).0
      <==> && WindowMs(config).Some? && IsValidQuote(e)
           && quotes != [] && quotes[|quotes| - 1].price == e.price
           && 0 <= e.observedAtMs - quotes[|quotes| - 1].observedAtMs < SignedWindow(WindowMs(config).value)
  {
    if WindowMs(config).Some? {
      EqualPricesAreSpaced(config, events);
    }
  }

  /** Event i is the last priced quote emitted; `e` has its price and comes less than the window after it. */
  ghost predicate RepeatsAt(config: StreamConfig, emitted: seq<FeedEvent>, e: FeedEvent, window: int, i: int) {
    && HasWindow(config, window) && LastQuoteAt(emitted, i)
    && emitted[i].price == e.price && 0 <= e.observedAtMs - emitted[i].observedAtMs < window
  }

  lemma SkippedRepeats(config: StreamConfig, events: seq<FeedEvent>, e: FeedEvent)
    requires SkipStep(config, e, StateAfter(config, events)).0
    ensures PricedQuote(e) && exists window, i :: RepeatsAt(config, Emitted(config, events), e, window, i)
  {
    var emitted := Emitted(config, events);
    SkippedByQuotes(config, events, e);
    LastQuoteExactly(emitted);
    var i :| LastQuoteAt(emitted, i);
    var window := SignedWindow(WindowMs(config).value);
    WindowExactly(config, window);
    assert RepeatsAt(config, emitted, e, window, i);
  }

  lemma RepeatIsSkipped(config: StreamConfig, events: seq<FeedEvent>, e: FeedEvent, window: int, i: int)
    requires PricedQuote(e) && RepeatsAt(config, Emitted(config, events), e, window, i)
    ensures SkipStep(config, e, StateAfter(config, events)).0
  {
    WindowExactly(config, window);
    LastQuoteExactly(Emitted(config, events));
    SkippedByQuotes(config, events, e);
  }

  /** Over every run, an event is skipped exactly when suppression is on, it is a quote with a finite
      positive price, and the last such event emitted before it has that price and is less than the
      window old. */
  lemma SkippedExactly(config: StreamConfig, events: seq<FeedEvent>, e: FeedEvent)
    ensures SkipStep(config, e, StateAfter(config, events)).0
       <==> PricedQuote(e) && (exists window, i :: RepeatsAt(config, Emitted(config, events), e, window, i))
  {
    if SkipStep(config, e, StateAfter(config, events)).0 {
      SkippedRepeats(config, events, e);
    } else if PricedQuote(e) {
      forall window, i ensures !RepeatsAt(config, Emitted(config, events), e, window, i) {
        if RepeatsAt(config, Emitted(config, events), e, window, i) {
          RepeatIsSkipped(config, events, e, window, i);
        }
      }
    }
  }

  lemma ValidQuotesOfLast(events: seq<FeedEvent>, e: FeedEvent)
    ensures ValidQuotes(events + [e]) == if IsValidQuote(e) then ValidQuotes(events) + [e] else ValidQuotes(events)
  {
    assert (events + [e])[..|events|] == events;
  }

  // ---- the market median ----

  ghost predicate Sorted(s: seq<real>) {
    forall i, j :: 0 <= i < j < |s| ==> s[i] <= s[j]
  }

  method SortInPlace(a: array<real>)
    modifies a
    ensures Sorted(a[..])
    ensures multiset(a[..]) == multiset(old(a[..]))
  {
    for i := 0 to a.Length
      invariant Sorted(a[..i])
      invariant multiset(a[..]) == multiset(old(a[..]))
    {
      SinkInto(a, i);
    }
    assert a[..a.Length] == a[..];
  }

  /** Moves a[n] down to its place among the sorted elements before it. */
  method SinkInto(a: array<real>, n: nat)
    requires n < a.Length && Sorted(a[..n])
    modifies a
    ensures Sorted(a[..n + 1])
    ensures multiset(a[..]) == multiset(old(a[..]))
  {
    var j := n;
    while j > 0 && a[j - 1] > a[j]
      invariant 0 <= j <= n
      invariant forall p, q :: 0 <= p < q <= n && q != j ==> a[p] <= a[q]
      invariant multiset(a[..]) == multiset(old(a[..]))
    {
      ghost var before := a[..];
      a[j - 1], a[j] := a[j], a[j - 1];
      SwapKeepsValues(before, a[..], j);
      j := j - 1;
    }
  }

  lemma SwapKeepsValues(before: seq<real>, after: seq<real>, j: nat)
    requires 0 < j < |before| && after == before[j - 1 := before[j]][j := before[j - 1]]
    ensures multiset(after) == multiset(before)
  {
  }

  function Middle(s: seq<real>): real
    requires s != []
  {
    var mid := |s| / 2;
    if |s| % 2 == 0 then (s[mid - 1] + s[mid]) / 2.0 else s[mid]
  }

  /** `m` is the middle of the values in sorted order; no values have no median. */
  ghost predicate IsMedian(values: seq<real>, m: Option<real>) {
    if values == [] then m == None
    else exists s :: Sorted(s) && multiset(s) == multiset(values) && s != [] && m == Some(Middle(s))
  }

  method ComputeMedian(values: array<real>) returns (m: Option<real>)
    modifies values
    ensures IsMedian(old(values[..]), m)
    ensures Sorted(values[..]) && multiset(values[..]) == multiset(old(values[..]))
  {
    if values.Length == 0 {
      return None;
    }
    SortInPlace(values);
    var mid := values.Length / 2;
    if values.Length % 2 == 0 {
      m := Some((values[mid - 1] + values[mid]) / 2.0);
    } else {
      m := Some(values[mid]);
    }
    assert m == Some(Middle(values[..]));
  }

  /** The valid prices met when the sources are visited in this order. */
  function PricesAlong(prices: map<string, Float>, order: seq<string>): seq<real> {
    if order == [] then []
    else
      var last := order[|order| - 1];
      PricesAlong(prices, order[..|order| - 1])
      + if last in prices && IsValidPrice(Some(prices[last])) then [prices[last].value] else []
  }

  ghost predicate IsOrder(prices: map<string, Float>, order: seq<string>) {
    NoDuplicates(order) && forall k :: k in order <==> k in prices
  }

  lemma LastIsLargest(s: seq<real>, x: real)
    requires Sorted(s) && x in multiset(s)
    ensures s != [] && x <= s[|s| - 1]
  {
    assert x in s;
  }

  lemma DropLast(s: seq<real>)
    requires s != []
    ensures multiset(s[..|s| - 1]) == multiset(s) - multiset{s[|s| - 1]}
  {
    assert s == s[..|s| - 1] + [s[|s| - 1]];
  }

  lemma SameLength(s: seq<real>, t: seq<real>)
    requires multiset(s) == multiset(t)
    ensures |s| == |t|
  {
    assert |s| == |multiset(s)| && |t| == |multiset(t)|;
  }

  lemma SameLast(s: seq<real>, t: seq<real>)
    requires Sorted(s) && Sorted(t) && multiset(s) == multiset(t) && s != [] && t != []
    ensures s[|s| - 1] == t[|t| - 1]
  {
    var x, y := s[|s| - 1], t[|t| - 1];
    assert x in multiset(s) && y in multiset(t);
    LastIsLargest(t, x);
    LastIsLargest(s, y);
  }

  lemma {:induction false} SortedIsUnique(s: seq<real>, t: seq<real>)
    requires Sorted(s) && Sorted(t) && multiset(s) == multiset(t)
    ensures s == t
  {
    SameLength(s, t);
    if s != [] {
      SameLast(s, t);
      DropLast(s);
      DropLast(t);
      SortedIsUnique(s[..|s| - 1], t[..|t| - 1]);
      assert s == s[..|s| - 1] + [s[|s| - 1]];
      assert t == t[..|t| - 1] + [t[|t| - 1]];
    }
  }

  lemma MedianDependsOnValuesOnly(a: seq<real>, b: seq<real>, m: Option<real>, n: Option<real>)
    requires multiset(a) == multiset(b) && IsMedian(a, m) && IsMedian(b, n)
    ensures m == n
  {
    SameLength(a, b);
    if a != [] {
      var s :| Sorted(s) && multiset(s) == multiset(a) && s != [] && m == Some(Middle(s));
      var t :| Sorted(t) && multiset(t) == multiset(b) && t != [] && n == Some(Middle(t));
      SortedIsUnique(s, t);
    }
  }

  function Contribution(prices: map<string, Float>, k: string): multiset<real> {
    if k in prices && IsValidPrice(Some(prices[k])) then multiset{prices[k].value} else multiset{}
  }

  function Bag(prices: map<string, Float>, order: seq<string>): multiset<real> {
    if order == [] then multiset{}
    else Bag(prices, order[..|order| - 1]) + Contribution(prices, order[|order| - 1])
  }

  lemma {:induction false} BagOfPrices(prices: map<string, Float>, order: seq<string>)
    ensures multiset(PricesAlong(prices, order)) == Bag(prices, order)
  {
    if order != [] {
      BagOfPrices(prices, order[..|order| - 1]);
    }
  }

  function RemoveAt(order: seq<string>, i: nat): seq<string>
    requires i < |order|
  {
    order[..i] + order[i + 1..]
  }

  lemma RemoveAtMembers(order: seq<string>, i: nat)
    requires i < |order| && NoDuplicates(order)
    ensures NoDuplicates(RemoveAt(order, i))
    ensures forall k :: k in RemoveAt(order, i) <==> k in order && k != order[i]
  {
    var shorter := RemoveAt(order, i);
    assert forall j :: 0 <= j < |shorter| ==> shorter[j] == if j < i then order[j] else order[j + 1];
    assert order == order[..i] + [order[i]] + order[i + 1..];
  }

  lemma SwapLast(a: multiset<real>, b: multiset<real>, c: multiset<real>)
    ensures (a + b) + c == (a + c) + b
  {
  }

  lemma BagOfLast(prices: map<string, Float>, order: seq<string>, k: string)
    ensures Bag(prices, order + [k]) == Bag(prices, order) + Contribution(prices, k)
  {
    assert (order + [k])[..|order|] == order;
  }

  lemma RemoveAtBeforeLast(order: seq<string>, i: nat)
    requires i < |order| - 1
    ensures RemoveAt(order, i) == RemoveAt(order[..|order| - 1], i) + [order[|order| - 1]]
  {
  }

  lemma BagSplits(prices: map<string, Float>, order: seq<string>)
    requires order != []
    ensures Bag(prices, order) == Bag(prices, order[..|order| - 1]) + Contribution(prices, order[|order| - 1])
  {
  }

  lemma {:induction false} DropFromOrder(prices: map<string, Float>, order: seq<string>, i: nat)
    requires i < |order|
    ensures Bag(prices, order) == Bag(prices, RemoveAt(order, i)) + Contribution(prices, order[i])
  {
    var last := |order| - 1;
    BagSplits(prices, order);
    if i == last {
      assert RemoveAt(order, i) == order[..last];
    } else {
      var shorter := RemoveAt(order[..last], i);
      DropFromOrder(prices, order[..last], i);
      RemoveAtBeforeLast(order, i);
      BagOfLast(prices, shorter, order[last]);
      SwapLast(Bag(prices, shorter), Contribution(prices, order[i]), Contribution(prices, order[last]));
    }
  }

  lemma {:induction false} SamePricesInAnyOrder(prices: map<string, Float>, p: seq<string>, q: seq<string>)
    requires NoDuplicates(p) && NoDuplicates(q) && forall k :: k in p <==> k in q
    ensures Bag(prices, p) == Bag(prices, q)
    decreases |p|
  {
    assert q != [] ==> q[0] in q;
    if p != [] {
      var n := |p| - 1;
      assert p[n] in q;
      var i :| 0 <= i < |q| && q[i] == p[n];
      DropFromOrder(prices, q, i);
      RemoveAtMembers(p, n);
      RemoveAtMembers(q, i);
      assert RemoveAt(p, n) == p[..n];
      SamePricesInAnyOrder(prices, p[..n], RemoveAt(q, i));
    }
  }

  /** The median does not depend on the order in which the map is visited. */
  lemma MedianIgnoresMapOrder(prices: map<string, Float>, p: seq<string>, q: seq<string>, m: Option<real>, n: Option<real>)
    requires IsOrder(prices, p) && IsOrder(prices, q)
    requires IsMedian(PricesAlong(prices, p), m) && IsMedian(PricesAlong(prices, q), n)
    ensures m == n
  {
    SamePricesInAnyOrder(prices, p, q);
    BagOfPrices(prices, p);
    BagOfPrices(prices, q);
    MedianDependsOnValuesOnly(PricesAlong(prices, p), PricesAlong(prices, q), m, n);
  }

  /** The median and the number of the valid prices, whichever order the map is visited in. */
  ghost predicate IsSnapshot(prices: map<string, Float>, median: Option<real>, sourceCount: nat) {
    && (exists order :: IsOrder(prices, order))
    && forall order :: IsOrder(prices, order) ==>
         IsMedian(PricesAlong(prices, order), median) && sourceCount == |PricesAlong(prices, order)|
  }

  lemma SnapshotInAnyOrder(prices: map<string, Float>, order: seq<string>, median: Option<real>)
    requires IsOrder(prices, order) && IsMedian(PricesAlong(prices, order), median)
    ensures IsSnapshot(prices, median, |PricesAlong(prices, order)|)
  {
    forall other | IsOrder(prices, other)
      ensures IsMedian(PricesAlong(prices, other), median)
           && |PricesAlong(prices, other)| == |PricesAlong(prices, order)|
    {
      SamePricesInAnyOrder(prices, order, other);
      BagOfPrices(prices, order);
      BagOfPrices(prices, other);
      SameLength(PricesAlong(prices, order), PricesAlong(prices, other));
    }
  }

  /** Visits the sources in an arbitrary order, as the iteration over a hash map does. */
  method BuildMarketTruthSnapshot(prices: map<string, Float>) returns (median: Option<real>, sourceCount: nat)
    ensures IsSnapshot(prices, median, sourceCount)
    ensures sourceCount == |set k | k in prices && prices[k].Finite? && prices[k].value > 0.0|
  {
    var values, order := ValidPrices(prices);
    sourceCount := |values|;
    var slice := new real[|values|](i requires 0 <= i < |values| => values[i]);
    assert slice[..] == values;
    median := ComputeMedian(slice);
    SnapshotInAnyOrder(prices, order, median);
    PricesCounted(prices, order);
    assert PricedSources(prices, order) == set k | k in prices && prices[k].Finite? && prices[k].value > 0.0;
  }

  method ValidPrices(prices: map<string, Float>) returns (values: seq<real>, ghost order: seq<string>)
    ensures IsOrder(prices, order) && values == PricesAlong(prices, order)
  {
    order := [];
    values := [];
    var rest := prices.Keys;
    while rest != {}
      invariant rest <= prices.Keys
      invariant NoDuplicates(order)
      invariant forall k :: k in prices <==> k in order || k in rest
      invariant forall k :: k in order ==> k !in rest && k in prices
      invariant values == PricesAlong(prices, order)
      decreases rest
    {
      var key :| key in rest;
      rest := rest - {key};
      assert (order + [key])[..|order|] == order;
      order := order + [key];
      if IsValidPrice(Some(prices[key])) {
        values := values + [prices[key].value];
      }
    }
  }

  /** `x` has k of the values at or below it and the others at or above it. */
  ghost predicate IsKth(values: seq<real>, k: nat, x: real) {
    exists low, high :: SplitsAround(values, low, x, high) && |low| == k
  }

  ghost predicate SplitsAround(values: seq<real>, low: seq<real>, x: real, high: seq<real>) {
    && multiset(low) + multiset{x} + multiset(high) == multiset(values)
    && (forall i :: 0 <= i < |low| ==> low[i] <= x)
    && forall i :: 0 <= i < |high| ==> high[i] >= x
  }

  lemma SortedKth(s: seq<real>, values: seq<real>, k: nat)
    requires Sorted(s) && multiset(s) == multiset(values) && k < |s|
    ensures IsKth(values, k, s[k])
  {
    var low, high := s[..k], s[k + 1..];
    assert s == low + [s[k]] + high;
    assert multiset(low + [s[k]] + high) == multiset(low) + multiset{s[k]} + multiset(high);
    assert SplitsAround(values, low, s[k], high);
  }

  ghost predicate AreMiddle(values: seq<real>, lo: real, hi: real)
    requires values != []
  {
    IsKth(values, (|values| - 1) / 2, lo) && IsKth(values, |values| / 2, hi)
  }

  /** The median is the average of the two middle values, which are one and the same for an odd count. */
  lemma MedianExactly(values: seq<real>, m: real)
    requires values != [] && IsMedian(values, Some(m))
    ensures exists lo, hi :: AreMiddle(values, lo, hi) && 2.0 * m == lo + hi
  {
    var s :| Sorted(s) && multiset(s) == multiset(values) && s != [] && m == Middle(s);
    SameLength(s, values);
    var lo, hi := s[(|s| - 1) / 2], s[|s| / 2];
    SortedKth(s, values, (|s| - 1) / 2);
    SortedKth(s, values, |s| / 2);
    assert AreMiddle(values, lo, hi) && 2.0 * m == lo + hi;
  }

  /** The prices that count are exactly the finite positive ones. */
  lemma {:induction false} PricesExactly(prices: map<string, Float>, order: seq<string>, x: real)
    ensures x in PricesAlong(prices, order) <==> x > 0.0 && exists i :: 0 <= i < |order| && Get(prices, order[i]) == Some(Finite(x))
  {
    if order != [] {
      var last := |order| - 1;
      PricesExactly(prices, order[..last], x);
      if i :| 0 <= i < last && Get(prices, order[..last][i]) == Some(Finite(x)) {
        assert Get(prices, order[i]) == Some(Finite(x));
      }
      if i :| 0 <= i < |order| && Get(prices, order[i]) == Some(Finite(x)) && i < last {
        assert Get(prices, order[..last][i]) == Some(Finite(x));
      }
    }
  }

  ghost function PricedSources(prices: map<string, Float>, order: seq<string>): set<string> {
    set k | k in order && k in prices && prices[k].Finite? && prices[k].value > 0.0
  }

  lemma PricedSourcesOfLast(prices: map<string, Float>, order: seq<string>, k: string)
    ensures PricedSources(prices, order + [k])
         == PricedSources(prices, order) + if k in prices && prices[k].Finite? && prices[k].value > 0.0 then {k} else {}
  {
    assert forall j :: j in order + [k] <==> j in order || j == k;
  }

  /** Each source with a finite positive price counts once. */
  lemma {:induction false} PricesCounted(prices: map<string, Float>, order: seq<string>)
    requires NoDuplicates(order)
    ensures |PricesAlong(prices, order)| == |PricedSources(prices, order)|
  {
    if order != [] {
      var last := |order| - 1;
      PricesCounted(prices, order[..last]);
      PricedSourcesOfLast(prices, order[..last], order[last]);
      assert order == order[..last] + [order[last]];
      assert order[last] !in PricedSources(prices, order[..last]);
    }
  }

  /** At least half of the values, counted with repetition, satisfy the bound. */
  ghost predicate HalfAtMost(values: seq<real>, m: real) {
    exists part: seq<real> ::
      multiset(part) <= multiset(values) && 2 * |part| >= |values| && forall x :: x in part ==> x <= m
  }

  ghost predicate HalfAtLeast(values: seq<real>, m: real) {
    exists part: seq<real> ::
      multiset(part) <= multiset(values) && 2 * |part| >= |values| && forall x :: x in part ==> x >= m
  }

  lemma SortedHalves(s: seq<real>)
    requires s != [] && Sorted(s)
    ensures forall i :: 0 <= i < (|s| + 1) / 2 ==> s[i] <= Middle(s)
    ensures forall i :: |s| / 2 <= i < |s| ==> s[i] >= Middle(s)
  {
  }

  lemma PartOfWhole(s: seq<real>, k: nat, values: seq<real>)
    requires k <= |s| && multiset(s) == multiset(values)
    ensures multiset(s[..k]) <= multiset(values) && multiset(s[k..]) <= multiset(values)
  {
    assert s == s[..k] + s[k..];
  }

  lemma LowerHalf(s: seq<real>, values: seq<real>)
    requires Sorted(s) && multiset(s) == multiset(values) && s != [] && |s| == |values|
    ensures HalfAtMost(values, Middle(s))
  {
    var k := (|s| + 1) / 2;
    var part := s[..k];
    SortedHalves(s);
    PartOfWhole(s, k, values);
    assert forall x :: x in part ==> x <= Middle(s);
    assert multiset(part) <= multiset(values) && 2 * |part| >= |values|;
  }

  lemma UpperHalf(s: seq<real>, values: seq<real>)
    requires Sorted(s) && multiset(s) == multiset(values) && s != [] && |s| == |values|
    ensures HalfAtLeast(values, Middle(s))
  {
    var k := |s| / 2;
    var part := s[k..];
    SortedHalves(s);
    PartOfWhole(s, k, values);
    assert forall i :: 0 <= i < |part| ==> part[i] == s[k + i];
    assert forall x :: x in part ==> x >= Middle(s);
    assert multiset(part) <= multiset(values) && 2 * |part| >= |values|;
  }

  /** At least half of the values are at or below the median and at least half at or above it. */
  lemma MedianHalvesValues(values: seq<real>, m: real)
    requires values != [] && IsMedian(values, Some(m))
    ensures HalfAtMost(values, m) && HalfAtLeast(values, m)
  {
    var s :| Sorted(s) && multiset(s) == multiset(values) && s != [] && m == Middle(s);
    SameLength(s, values);
    LowerHalf(s, values);
    UpperHalf(s, values);
  }

  /** The median lies between any bounds on the values. */
  lemma MedianWithinBounds(values: seq<real>, m: real, lo: real, hi: real)
    requires values != [] && IsMedian(values, Some(m))
    requires forall x :: x in values ==> lo <= x <= hi
    ensures lo <= m <= hi
  {
    var s :| Sorted(s) && multiset(s) == multiset(values) && s != [] && m == Middle(s);
    SortedHalves(s);
    assert s[0] in multiset(s) && s[|s| - 1] in multiset(s);
    assert s[0] in values && s[|s| - 1] in values;
  }
}
