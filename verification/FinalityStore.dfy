/** Saving a tracker to its database row and loading it again
    (crates/state-manager/src/finality.rs to_json/from_json, apps/finality/src/main.rs). */
module FinalityStore {
  import opened Common
  import opened Finality
  import opened FinalityStep
  import opened FinalityRuns

  const TWO_TO_THE_32: int := 0x1_0000_0000

  /** The persisted columns: BIGINT head, INTEGER depth and two JSON objects. JSON object keys
      are strings, so block numbers are written in decimal. */
  datatype FinalityStateRow = FinalityStateRow(
    headBlock: int,
    confirmationDepth: int,
    blocks: map<string, BlockEntry>,
    states: States)

  // ---- decimal object keys ----

  function Digit(d: nat): char
    requires d < 10
  {
    ('0' as int + d) as char
  }

  function DigitValue(c: char): Option<nat> {
    if '0' <= c <= '9' then Some(c as int - '0' as int) else None
  }

  function ToDecimal(n: nat): string {
    if n < 10 then [Digit(n)] else ToDecimal(n / 10) + [Digit(n % 10)]
  }

  /** Accepts digits only, with no leading zero. */
  function FromDecimal(s: string): Option<nat> {
    if s == "" then None
    else
      var d := DigitValue(s[|s| - 1]);
      if |s| == 1 then d
      else
        var high := FromDecimal(s[..|s| - 1]);
        if high.Some? && high.value > 0 && d.Some? then Some(10 * high.value + d.value) else None
  }

  lemma {:induction false} DecimalReadsBack(n: nat)
    ensures FromDecimal(ToDecimal(n)) == Some(n)
  {
    if n >= 10 {
      DecimalReadsBack(n / 10);
      var s := ToDecimal(n);
      assert s[..|s| - 1] == ToDecimal(n / 10);
    }
  }

  lemma {:induction false} DecimalIsCanonical(s: string)
    requires FromDecimal(s).Some?
    ensures ToDecimal(FromDecimal(s).value) == s
  {
    if |s| > 1 {
      var high, last := s[..|s| - 1], s[|s| - 1];
      DecimalIsCanonical(high);
      var h, d := FromDecimal(high).value, DigitValue(last).value;
      assert (10 * h + d) / 10 == h && (10 * h + d) % 10 == d;
      assert Digit(d) == last;
      assert s == high + [last];
    }
  }

  /** The text is the number in base ten: one digit character for each digit, highest first. */
  lemma DecimalIsBaseTen(h: nat, d: nat)
    requires d < 10
    ensures ToDecimal(d) == ["0123456789"[d]]
    ensures h > 0 ==> ToDecimal(10 * h + d) == ToDecimal(h) + ["0123456789"[d]]
  {
    assert (10 * h + d) / 10 == h && (10 * h + d) % 10 == d;
    assert Digit(d) == "0123456789"[d];
  }

  function BlockNumber(s: string): Option<U64> {
    var n := FromDecimal(s);
    if n.Some? && n.value < 0x1_0000_0000_0000_0000 then Some(n.value) else None
  }

  /** Renames the keys of a map; `f` must keep them apart. */
  function Rekey<A, B, V>(m: map<A, V>, f: A -> B): map<B, V>
    requires forall a, c :: a in m && c in m && f(a) == f(c) ==> a == c
  {
    map a | a in m :: f(a) := m[a]
  }

  lemma RekeyBack<A, B, V>(m: map<A, V>, f: A -> B, g: B -> A)
    requires forall a :: a in m ==> g(f(a)) == a
    ensures forall a, c :: a in m && c in m && f(a) == f(c) ==> a == c
    ensures forall b, d :: b in Rekey(m, f) && d in Rekey(m, f) && g(b) == g(d) ==> b == d
    ensures Rekey(Rekey(m, f), g) == m
  {
    assert forall a, c :: a in m && c in m && f(a) == f(c) ==> a == c by {
      forall a, c | a in m && c in m && f(a) == f(c) ensures a == c {
        assert g(f(a)) == g(f(c));
      }
    }
    var doc := Rekey(m, f);
    assert forall b :: b in doc ==> exists a :: a in m && f(a) == b;
    var back := Rekey(doc, g);
    forall a | a in m ensures a in back && back[a] == m[a] {
      assert f(a) in doc;
      assert g(f(a)) in back;
    }
    forall a | a in back ensures a in m {
      var b :| b in doc && g(b) == a;
    }
  }

  function KeyOf(b: U64): string { ToDecimal(b) }

  function NumberOf(s: string): U64 { if BlockNumber(s).Some? then BlockNumber(s).value else 0 }

  lemma NumberOfKey(b: U64)
    ensures BlockNumber(KeyOf(b)) == Some(b) && NumberOf(KeyOf(b)) == b
  {
    DecimalReadsBack(b);
  }

  lemma KeysDiffer(s: string, r: string)
    requires BlockNumber(s).Some? && BlockNumber(r).Some? && NumberOf(s) == NumberOf(r)
    ensures s == r
  {
    DecimalIsCanonical(s);
    DecimalIsCanonical(r);
  }

  function EncodeBlocks(blocks: Blocks): map<string, BlockEntry> {
    assert forall b, c :: b in blocks && c in blocks && KeyOf(b) == KeyOf(c) ==> b == c by {
      forall b, c | b in blocks && c in blocks && KeyOf(b) == KeyOf(c) ensures b == c {
        NumberOfKey(b);
        NumberOfKey(c);
      }
    }
    Rekey(blocks, KeyOf)
  }

  predicate AllBlockNumbers(keys: set<string>) {
    forall s :: s in keys ==> BlockNumber(s).Some?
  }

  function DecodeBlocks(doc: map<string, BlockEntry>): Blocks
    requires AllBlockNumbers(doc.Keys)
  {
    assert forall s, r :: s in doc && r in doc && NumberOf(s) == NumberOf(r) ==> s == r by {
      forall s, r | s in doc && r in doc && NumberOf(s) == NumberOf(r) ensures s == r {
        assert s in doc.Keys && r in doc.Keys;
        KeysDiffer(s, r);
      }
    }
    Rekey(doc, NumberOf)
  }

  lemma BlocksReadBack(blocks: Blocks)
    ensures AllBlockNumbers(EncodeBlocks(blocks).Keys)
    ensures DecodeBlocks(EncodeBlocks(blocks)) == blocks
  {
    forall b | b in blocks ensures NumberOf(KeyOf(b)) == b && BlockNumber(KeyOf(b)).Some? {
      NumberOfKey(b);
    }
    RekeyBack(blocks, KeyOf, NumberOf);
  }

  // ---- the two integer columns ----

  /** JSON number to i64, 0 when it does not fit. */
  function HeadColumn(head: U64): int {
    if head < 0x8000_0000_0000_0000 then head else 0
  }

  /** `as i32`: keep the low 32 bits and read them as a signed number. */
  function DepthColumn(depth: U64): int {
    var low := depth % 0x1_0000_0000;
    if low < 0x8000_0000 then low else low - 0x1_0000_0000
  }

  /** `i32 as u64`: sign extension. */
  function DepthFromColumn(column: int): U64
    requires -0x8000_0000 <= column < 0x8000_0000
  {
    if column < 0 then column + 0x1_0000_0000_0000_0000 else column
  }

  /** `configured` is the depth the service reads from its environment at save time. */
  function SaveRow(t: Tracker, configured: U64): FinalityStateRow {
    FinalityStateRow(HeadColumn(t.head), DepthColumn(configured), EncodeBlocks(t.blocks), t.states)
  }

  /** Fails on a negative head or a key that is not a block number; the depth is not clamped. */
  function LoadRow(row: FinalityStateRow, chain: Chain): Option<Tracker> {
    if && 0 <= row.headBlock < 0x1_0000_0000_0000_0000
       && AllBlockNumbers(row.blocks.Keys)
       && -0x8000_0000 <= row.confirmationDepth < 0x8000_0000
    then Some(Tracker(chain, DepthFromColumn(row.confirmationDepth), row.headBlock, DecodeBlocks(row.blocks), row.states))
    else None
  }

  /** What the columns hold: the head or 0 if it is too large, the configured depth modulo 2^32 as a signed
      number, and every live block under its decimal number. */
  lemma SavesExactly(t: Tracker, configured: U64)
    ensures
      var row := SaveRow(t, configured);
      && row.headBlock == (if t.head < TWO_TO_THE_63 then t.head else 0)
      && -0x8000_0000 <= row.confirmationDepth < 0x8000_0000
      && (configured - row.confirmationDepth) % TWO_TO_THE_32 == 0
      && row.states == t.states
      && (forall b :: b in t.blocks ==> ToDecimal(b) in row.blocks && row.blocks[ToDecimal(b)] == t.blocks[b])
      && (forall s :: s in row.blocks ==> exists b :: b in t.blocks && ToDecimal(b) == s)
  {
    var doc := EncodeBlocks(t.blocks);
    forall b | b in t.blocks ensures ToDecimal(b) in doc && doc[ToDecimal(b)] == t.blocks[b] {
      assert KeyOf(b) in doc;
      NumberOfKey(b);
      forall c | c in t.blocks && KeyOf(c) == KeyOf(b) ensures c == b { NumberOfKey(c); }
    }
    forall s | s in doc ensures exists b :: b in t.blocks && ToDecimal(b) == s {
      var b :| b in t.blocks && KeyOf(b) == s;
    }
  }

  /** The text is the decimal number of a block. */
  ghost predicate NumbersBlock(s: string) {
    exists b: U64 :: ToDecimal(b) == s
  }

  lemma NumbersBlockExactly(s: string)
    ensures NumbersBlock(s) <==> BlockNumber(s).Some?
    ensures BlockNumber(s).Some? ==> ToDecimal(NumberOf(s)) == s
  {
    if BlockNumber(s).Some? {
      DecimalIsCanonical(s);
    }
    if b: U64 :| ToDecimal(b) == s {
      NumberOfKey(b);
    }
  }

  lemma KeysNumberBlocks(keys: set<string>)
    ensures AllBlockNumbers(keys) <==> forall s :: s in keys ==> NumbersBlock(s)
  {
    forall s ensures NumbersBlock(s) <==> BlockNumber(s).Some? { NumbersBlockExactly(s); }
  }

  /** A row loads exactly when its head is a u64 and its keys are decimal block numbers. */
  lemma LoadsExactly(row: FinalityStateRow, chain: Chain)
    requires -0x8000_0000 <= row.confirmationDepth < 0x8000_0000
    ensures LoadRow(row, chain).Some?
       <==> 0 <= row.headBlock <= MAX_U64 && forall s :: s in row.blocks.Keys ==> NumbersBlock(s)
  {
    KeysNumberBlocks(row.blocks.Keys);
  }

  /** A loaded tracker has the row's parts, with a negative depth read as a u64. */
  lemma LoadedPartsExactly(row: FinalityStateRow, chain: Chain)
    requires LoadRow(row, chain).Some?
    ensures
      var t := LoadRow(row, chain).value;
      && t.chain == chain && t.head == row.headBlock && t.states == row.states
      && t.defaultDepth == (if row.confirmationDepth >= 0 then row.confirmationDepth
                            else MAX_U64 + 1 + row.confirmationDepth)
      && (forall b: U64 :: b in t.blocks <==> ToDecimal(b) in row.blocks)
      && (forall b :: b in t.blocks ==> t.blocks[b] == row.blocks[ToDecimal(b)])
  {
    var t := LoadRow(row, chain).value;
    assert t.blocks == DecodeBlocks(row.blocks);
    LoadedBlocks(row.blocks);
  }

  lemma LoadedBlocks(doc: map<string, BlockEntry>)
    requires AllBlockNumbers(doc.Keys)
    ensures forall b: U64 :: b in DecodeBlocks(doc) <==> ToDecimal(b) in doc
    ensures forall b :: b in DecodeBlocks(doc) ==> DecodeBlocks(doc)[b] == doc[ToDecimal(b)]
  {
    var blocks := DecodeBlocks(doc);
    forall b: U64 | ToDecimal(b) in doc ensures b in blocks && blocks[b] == doc[ToDecimal(b)] {
      NumberOfKey(b);
      assert NumberOf(ToDecimal(b)) == b;
      forall s | s in doc && NumberOf(s) == b ensures s == ToDecimal(b) {
        assert s in doc.Keys;
        NumbersBlockExactly(s);
      }
    }
    forall b: U64 | b in blocks ensures ToDecimal(b) in doc {
      var s :| s in doc && NumberOf(s) == b;
      assert s in doc.Keys;
      NumbersBlockExactly(s);
    }
  }

  predicate DepthFits(depth: U64) {
    depth < 0x8000_0000 || depth >= 0xFFFF_FFFF_8000_0000
  }

  lemma DepthRoundTripsExactly(depth: U64)
    ensures ReloadedDepth(depth) == depth <==> DepthFits(depth)
  {
  }

  /** The depth that a saved row gives back. */
  function ReloadedDepth(configured: U64): U64 {
    DepthFromColumn(DepthColumn(configured))
  }

  /** For any depth configured at save time a reload succeeds and keeps blocks and states; it gives the
      same tracker exactly when the head fits its column and the saved depth comes back as the tracker's. */
  lemma ReloadExactly(t: Tracker, configured: U64)
    ensures LoadRow(SaveRow(t, configured), t.chain)
         == Some(t.(head := HeadColumn(t.head), defaultDepth := ReloadedDepth(configured)))
    ensures LoadRow(SaveRow(t, configured), t.chain) == Some(t)
       <==> t.head < TWO_TO_THE_63 && ReloadedDepth(configured) == t.defaultDepth
  {
    BlocksReadBack(t.blocks);
  }

  // ---- a reloaded tracker against the original ----

  ghost predicate AnswerAlike(t: Tracker, u: Tracker) {
    forall inputs :: Log(t, inputs) == Log(u, inputs)
  }

  /** An event without a hash under an unknown key never conflicts, and its own update is a
      confirmation exactly when its block is already final. */
  lemma NewKeyWord(t: Tracker, e: NormalizedEvent)
    requires e.chain == t.chain && e.blockHash == None && Unheard(t, e.eventKey)
    ensures
      var final := e.blockNumber <= SaturatingSub(Max(t.head, e.blockNumber), EffectiveDepth(t, e));
      Word(Observe(t, e).1.updates, e.eventKey) == if final then [Provisional, Confirmed] else [Provisional]
  {
    var k, next := e.eventKey, NextBlocks(t, e);
    ObserveExactly(t, e, k);
    assert !Conflicts(t, e);
    assert e.blockNumber in next && k in next[e.blockNumber].eventKeys;
    assert forall b :: b in next && b != e.blockNumber ==> b in t.blocks && next[b] == t.blocks[b];
  }

  lemma TwoInputs(t: Tracker, i: Input, j: Input)
    ensures Log(t, [i, j]) == Emits(t, i) + Emits(Step(t, i), j)
  {
    var inputs := [i, j];
    OneInput(t, i);
    assert inputs[..|inputs| - 1] == [i] && inputs[|inputs| - 1] == j;
    assert Log(t, inputs) == Log(t, [i]) + Emits(RunFrom(t, [i]), j);
  }

  lemma DiffersOn(t: Tracker, u: Tracker, inputs: seq<Input>, k: string)
    requires Word(Log(t, inputs), k) != Word(Log(u, inputs), k)
    ensures !AnswerAlike(t, u) && !AnswerAlike(u, t)
  {
    assert Log(t, inputs) != Log(u, inputs);
  }

  /** A lost head shows at once: a low block is final for the original and not for the copy. */
  lemma LostHeadShows(t: Tracker, u: Tracker, k: string)
    requires t.chain == u.chain && t.head >= 2 && u.head == 0
    requires Unheard(t, k) && Unheard(u, k)
    ensures !AnswerAlike(t, u)
  {
    var e := BareEvent(t.chain, k, 1, Some(1));
    NewKeyWord(t, e);
    NewKeyWord(u, e);
    OneInput(t, Seen(e));
    OneInput(u, Seen(e));
    DiffersOn(t, u, [Seen(e)], k);
  }

  lemma HeadAfter(t: Tracker, e: NormalizedEvent)
    requires e.chain == t.chain && e.blockHash == None
    ensures
      var next := Observe(t, e).0;
      next.chain == t.chain && next.defaultDepth == t.defaultDepth && next.head == Max(t.head, e.blockNumber)
  {
    assert !Conflicts(t, e);
  }

  lemma WordOfSecond(t: Tracker, e: NormalizedEvent, f: NormalizedEvent)
    requires Unheard(t, f.eventKey) && e.eventKey != f.eventKey
    ensures Word(Log(t, [Seen(e), Seen(f)]), f.eventKey) == Word(Observe(Observe(t, e).0, f).1.updates, f.eventKey)
  {
    var first, second := Emits(t, Seen(e)), Emits(Step(t, Seen(e)), Seen(f));
    TwoInputs(t, Seen(e), Seen(f));
    WordConcat(first, second, f.eventKey);
    assert Word(first, f.eventKey) == [] by { EventKeepsUnheard(t, e, f.eventKey); }
  }

  /** After `e` under another key, a second event is judged against the raised head. */
  lemma SecondNewKeyWord(t: Tracker, e: NormalizedEvent, f: NormalizedEvent)
    requires e.chain == t.chain == f.chain && e.blockHash == f.blockHash == None && e.eventKey != f.eventKey
    requires Unheard(t, f.eventKey)
    requires !f.requiresConfirmation
    ensures
      var final := f.blockNumber <= SaturatingSub(Max(Max(t.head, e.blockNumber), f.blockNumber), t.defaultDepth);
      Word(Log(t, [Seen(e), Seen(f)]), f.eventKey) == if final then [Provisional, Confirmed] else [Provisional]
  {
    EventKeepsUnheard(t, e, f.eventKey);
    HeadAfter(t, e);
    WordOfSecond(t, e, f);
    NewKeyWord(Observe(t, e).0, f);
  }

  /** A changed depth shows after two events: the second sits between the two heights. */
  lemma LostDepthShows(t: Tracker, u: Tracker, j: string, k: string)
    requires t.chain == u.chain && t.head == u.head && t.defaultDepth < u.defaultDepth
    requires Unheard(t, k) && Unheard(u, k) && j != k
    ensures !AnswerAlike(t, u) && !AnswerAlike(u, t)
  {
    var top: U64 := Max(t.head, t.defaultDepth + 1);
    var between: U64 := top - t.defaultDepth;
    assert between > SaturatingSub(top, u.defaultDepth);
    var e := BareEvent(t.chain, j, top, None);
    var f := BareEvent(t.chain, k, between, None);
    SecondNewKeyWord(t, e, f);
    SecondNewKeyWord(u, e, f);
    DiffersOn(t, u, [Seen(e), Seen(f)], k);
  }

  lemma {:induction false} KeysAreShort(keys: set<string>) returns (n: nat)
    ensures forall k :: k in keys ==> |k| < n
  {
    n := 0;
    if keys != {} {
      var k :| k in keys;
      var m := KeysAreShort(keys - {k});
      n := m + |k| + 1;
    }
  }

  lemma LostPartShows(t: Tracker, u: Tracker)
    requires Valid(t) && u == t.(head := HeadColumn(t.head), defaultDepth := u.defaultDepth)
    requires t.head >= TWO_TO_THE_63 || u.defaultDepth != t.defaultDepth
    ensures !AnswerAlike(t, u)
  {
    var n := KeysAreShort(t.states.Keys);
    var j, k := seq(n, i => 'a'), seq(n + 1, i => 'a');
    assert |j| != |k| && k !in t.states.Keys;
    assert Unheard(t, k) && Unheard(u, k);
    if t.head >= TWO_TO_THE_63 {
      LostHeadShows(t, u, k);
    } else if t.defaultDepth < u.defaultDepth {
      LostDepthShows(t, u, j, k);
    } else {
      LostDepthShows(u, t, j, k);
    }
  }

  /** For any depth configured at save time, a saved and reloaded valid tracker answers every later
      sequence of events and notices like the original exactly when its head fits its column and
      the saved depth comes back as the tracker's own. */
  lemma ReloadedAnswersAlikeExactly(t: Tracker, configured: U64)
    requires Valid(t)
    ensures
      var loaded := LoadRow(SaveRow(t, configured), t.chain);
      && loaded.Some?
      && (AnswerAlike(t, loaded.value) <==> t.head < TWO_TO_THE_63 && ReloadedDepth(configured) == t.defaultDepth)
  {
    ReloadExactly(t, configured);
    var u := LoadRow(SaveRow(t, configured), t.chain).value;
    if !(t.head < TWO_TO_THE_63 && ReloadedDepth(configured) == t.defaultDepth) {
      LostPartShows(t, u);
    }
  }

  /** Outside the range it does not: a depth of 2^32 comes back as 0, and the reloaded tracker
      confirms a new event at once while the original keeps it provisional. */
  lemma OversizedDepthIsLost(key: string, hash: Option<string>)
    ensures
      var t := Fresh(Ethereum, TWO_TO_THE_32);
      var loaded := LoadRow(SaveRow(t, t.defaultDepth), t.chain);
      var e := NormalizedEvent(Ethereum, key, 0x1_0000_0001, hash, false, 0);
      && loaded.Some? && loaded.value.defaultDepth == 0
      && Get(Observe(loaded.value, e).0.states, key) == Some(Confirmed)
      && Get(Observe(t, e).0.states, key) == Some(Provisional)
  {
    var t := Fresh(Ethereum, TWO_TO_THE_32);
    ReloadExactly(t, t.defaultDepth);
    var e := NormalizedEvent(Ethereum, key, 0x1_0000_0001, hash, false, 0);
    assert DepthFromColumn(DepthColumn(TWO_TO_THE_32)) == 0;
    FirstEventOfEmptyTracker(t, e);
    FirstEventOfEmptyTracker(t.(defaultDepth := 0), e);
  }

  lemma FirstEventOfEmptyTracker(t: Tracker, e: NormalizedEvent)
    requires t.blocks == map[] && t.states == map[] && t.head == 0 && e.chain == t.chain
    ensures Get(Observe(t, e).0.states, e.eventKey)
         == Some(if e.blockNumber <= SaturatingSub(e.blockNumber, EffectiveDepth(t, e)) then Confirmed else Provisional)
  {
    ObserveExactly(t, e, e.eventKey);
    var next := NextBlocks(t, e);
    assert e.blockNumber in next && e.eventKey in next[e.blockNumber].eventKeys;
    assert forall b :: b in next ==> b == e.blockNumber;
  }
}
