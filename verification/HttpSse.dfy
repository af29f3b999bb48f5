/** The incremental server-sent-events parser
    (apps/indexer/src/stream_connector/http_sse.rs).

    Lossy UTF-8 decoding and JSON decoding are parameters; everything the parser does with lines,
    pending data and the byte buffer is modelled. */
module HttpSse {
  import opened Common

  type Byte = x: int | 0 <= x < 256

  const LF: Byte := 10

  /** `lossy` decodes the bytes of one line; `json` decodes the text of one event. */
  datatype Codec<!V> = Codec(lossy: seq<Byte> -> string, json: string -> Option<V>)

  /** What one call of `next_payload` can give. */
  datatype Outcome<V> = Payload(value: V) | BadJson(raw: string) | Ended | NotConnected | ReadFailed

  /** What the response yields when it is polled; after the last poll the stream has ended. */
  datatype Poll = Chunk(bytes: seq<Byte>) | TimedOut | Failed

  // ---- one line ----

  function TrimEndCR(s: string): string {
    if s != "" && s[|s| - 1] == '\r' then TrimEndCR(s[..|s| - 1]) else s
  }

  datatype Line = Blank | Data(text: string) | Ignored

  function Classify(decoded: string): Line {
    var line := TrimEndCR(decoded);
    if line == "" then Blank
    else if line[0] == ':' then Ignored
    else if "data:" <= line then Data(TrimStart(line[5..]))
    else Ignored
  }

  function Join(lines: seq<string>): string {
    if lines == [] then ""
    else if |lines| == 1 then lines[0]
    else lines[0] + "\n" + Join(lines[1..])
  }

  // ---- splitting bytes into complete lines ----

  /** The complete lines of `bytes`, without their LF; an unfinished last line is not among them. */
  ghost function Lines(bytes: seq<Byte>): seq<seq<Byte>> {
    if LF !in bytes then []
    else
      var n := Position(bytes, LF);
      [bytes[..n]] + Lines(bytes[n + 1..])
  }

  /** The bytes after the last LF. */
  ghost function Unfinished(bytes: seq<Byte>): seq<Byte> {
    if LF !in bytes then bytes else Unfinished(bytes[Position(bytes, LF) + 1..])
  }

  ghost function Classified<V>(codec: Codec<V>, lines: seq<seq<Byte>>): seq<Line> {
    seq(|lines|, i requires 0 <= i < |lines| => Classify(codec.lossy(lines[i])))
  }

  // ---- line by line: what the parser will still report ----

  function Verdict<V>(codec: Codec<V>, raw: string): Outcome<V> {
    var v := codec.json(raw);
    if v.Some? then Payload(v.value) else BadJson(raw)
  }

  /** The outcomes due when `lines` are read with `pending` data lines already held. */
  ghost function Outcomes<V>(codec: Codec<V>, pending: seq<string>, lines: seq<Line>): seq<Outcome<V>>
    decreases lines
  {
    if lines == [] then []
    else
      match lines[0]
      case Blank =>
        (if pending == [] then [] else [Verdict(codec, Join(pending))]) + Outcomes(codec, [], lines[1..])
      case Data(text) => Outcomes(codec, pending + [text], lines[1..])
      case Ignored => Outcomes(codec, pending, lines[1..])
  }

  // ---- batch parse: an independent definition over all the bytes ----

  /** The line list cut at its blank lines; lines after the last blank line form no block. */
  ghost function Blocks(lines: seq<Line>): seq<seq<Line>> {
    if Blank !in lines then []
    else
      var n := Position(lines, Blank);
      [lines[..n]] + Blocks(lines[n + 1..])
  }

  ghost function DataTexts(block: seq<Line>): seq<string> {
    if block == [] then []
    else (if block[0].Data? then [block[0].text] else []) + DataTexts(block[1..])
  }

  /** One raw event for every blank-terminated block that holds a data line. */
  ghost function RawEvents(blocks: seq<seq<Line>>): seq<string> {
    if blocks == [] then []
    else (if DataTexts(blocks[0]) == [] then [] else [Join(DataTexts(blocks[0]))]) + RawEvents(blocks[1..])
  }

  ghost function Verdicts<V>(codec: Codec<V>, raws: seq<string>): seq<Outcome<V>> {
    seq(|raws|, i requires 0 <= i < |raws| => Verdict(codec, raws[i]))
  }

  ghost function Batch<V>(codec: Codec<V>, bytes: seq<Byte>): seq<Outcome<V>> {
    Verdicts(codec, RawEvents(Blocks(Stream(codec, bytes))))
  }

  // ---- the response ----

  /** All bytes the response delivers before it ends or fails. */
  function BytesOf(polls: seq<Poll>): seq<Byte> {
    if polls == [] then []
    else
      match polls[0]
      case Chunk(bytes) => bytes + BytesOf(polls[1..])
      case TimedOut => BytesOf(polls[1..])
      case Failed => []
  }

  /** How the response stops. */
  function StopOf<V>(polls: seq<Poll>): (stop: Outcome<V>)
    ensures stop == Ended || stop == ReadFailed
  {
    if polls == [] then Ended
    else if polls[0].Failed? then ReadFailed
    else StopOf(polls[1..])
  }

  // ---- laws of the line splitter ----

  lemma FirstLine(line: seq<Byte>, rest: seq<Byte>)
    requires LF !in line
    ensures LF in line + [LF] + rest
    ensures Lines(line + [LF] + rest) == [line] + Lines(rest)
  {
    var bytes := line + [LF] + rest;
    assert bytes[|line|] == LF && bytes[..|line|] == line && bytes[|line| + 1..] == rest;
    PositionIs(bytes, LF, |line|);
  }

  lemma ClassifiedStep<V>(codec: Codec<V>, line: seq<Byte>, lines: seq<seq<Byte>>)
    ensures Classified(codec, [line] + lines) == [Classify(codec.lossy(line))] + Classified(codec, lines)
  {
  }

  /** The outcomes due when the next line is `line` and `later` are the lines after it. */
  ghost function After<V>(codec: Codec<V>, pending: seq<string>, line: Line, later: seq<Line>): seq<Outcome<V>> {
    match line
    case Blank => (if pending == [] then [] else [Verdict(codec, Join(pending))]) + Outcomes(codec, [], later)
    case Data(text) => Outcomes(codec, pending + [text], later)
    case Ignored => Outcomes(codec, pending, later)
  }

  ghost function Stream<V>(codec: Codec<V>, bytes: seq<Byte>): seq<Line> {
    Classified(codec, Lines(bytes))
  }

  lemma StreamStep<V>(codec: Codec<V>, line: seq<Byte>, rest: seq<Byte>)
    requires LF !in line
    ensures Stream(codec, line + [LF] + rest) == [Classify(codec.lossy(line))] + Stream(codec, rest)
  {
    FirstLine(line, rest);
    ClassifiedStep(codec, line, Lines(rest));
  }

  lemma OutcomesStep<V>(codec: Codec<V>, pending: seq<string>, line: Line, later: seq<Line>)
    ensures Outcomes(codec, pending, [line] + later) == After(codec, pending, line, later)
  {
    assert ([line] + later)[1..] == later;
  }

  /** Reading the first complete line of the buffer. */
  lemma BufferStep<V>(codec: Codec<V>, pending: seq<string>, buffer: seq<Byte>, rest: seq<Byte>)
    requires LF in buffer
    ensures
      var n := Position(buffer, LF);
      Outcomes(codec, pending, Stream(codec, buffer + rest))
      == After(codec, pending, Classify(codec.lossy(buffer[..n])), Stream(codec, buffer[n + 1..] + rest))
  {
    var n := Position(buffer, LF);
    assert buffer + rest == buffer[..n] + [LF] + (buffer[n + 1..] + rest);
    StreamStep(codec, buffer[..n], buffer[n + 1..] + rest);
    OutcomesStep(codec, pending, Classify(codec.lossy(buffer[..n])), Stream(codec, buffer[n + 1..] + rest));
  }

  lemma NothingDue<V>(codec: Codec<V>, pending: seq<string>, buffer: seq<Byte>)
    requires LF !in buffer
    ensures Outcomes(codec, pending, Stream(codec, buffer)) == []
  {
  }

  // ---- line by line equals batch ----

  lemma {:induction false} NoBlankNothingDue<V>(codec: Codec<V>, pending: seq<string>, lines: seq<Line>)
    requires Blank !in lines
    ensures Outcomes(codec, pending, lines) == []
    decreases lines
  {
    if lines != [] {
      NoBlankNothingDue(codec, if lines[0].Data? then pending + [lines[0].text] else pending, lines[1..]);
    }
  }

  lemma {:induction false} FirstBlock<V>(codec: Codec<V>, pending: seq<string>, block: seq<Line>, rest: seq<Line>)
    requires Blank !in block
    ensures
      var texts := pending + DataTexts(block);
      Outcomes(codec, pending, block + ([Blank] + rest))
      == (if texts == [] then [] else [Verdict(codec, Join(texts))]) + Outcomes(codec, [], rest)
    decreases block
  {
    if block == [] {
      assert pending + [] == pending;
      OutcomesStep(codec, pending, Blank, rest);
      assert block + ([Blank] + rest) == [Blank] + rest;
    } else {
      var head, tail := block[0], block[1..];
      var later := tail + ([Blank] + rest);
      var one := if head.Data? then [head.text] else [];
      assert block == [head] + tail;
      ConcatAssociative([head], tail, [Blank] + rest);
      OutcomesStep(codec, pending, head, later);
      assert pending + [] == pending;
      ConcatAssociative(pending, one, DataTexts(tail));
      FirstBlock(codec, pending + one, tail, rest);
    }
  }

  lemma VerdictsConcat<V>(codec: Codec<V>, a: seq<string>, b: seq<string>)
    ensures Verdicts(codec, a + b) == Verdicts(codec, a) + Verdicts(codec, b)
  {
  }

  lemma {:induction false} LineByLineIsBatch<V>(codec: Codec<V>, lines: seq<Line>)
    ensures Outcomes(codec, [], lines) == Verdicts(codec, RawEvents(Blocks(lines)))
    decreases |lines|
  {
    if Blank in lines {
      var n := Position(lines, Blank);
      var block, rest := lines[..n], lines[n + 1..];
      assert lines == block + ([Blank] + rest);
      FirstBlock(codec, [], block, rest);
      assert [] + DataTexts(block) == DataTexts(block);
      LineByLineIsBatch(codec, rest);
      var first := if DataTexts(block) == [] then [] else [Join(DataTexts(block))];
      BlocksStep(lines);
      VerdictsConcat(codec, first, RawEvents(Blocks(rest)));
    } else {
      NoBlankNothingDue(codec, [], lines);
    }
  }

  lemma BlocksStep(lines: seq<Line>)
    requires Blank in lines
    ensures
      var n := Position(lines, Blank);
      var texts := DataTexts(lines[..n]);
      RawEvents(Blocks(lines)) == (if texts == [] then [] else [Join(texts)]) + RawEvents(Blocks(lines[n + 1..]))
  {
    var n := Position(lines, Blank);
    assert Blocks(lines) == [lines[..n]] + Blocks(lines[n + 1..]);
  }

  lemma OutcomesOfStream<V>(codec: Codec<V>, bytes: seq<Byte>)
    ensures Outcomes(codec, [], Stream(codec, bytes)) == Batch(codec, bytes)
  {
    LineByLineIsBatch(codec, Stream(codec, bytes));
  }

  // ---- the connector ----

  class HttpSseConnector<V> {
    const codec: Codec<V>
    var response: Option<seq<Poll>>
    var lineBuffer: seq<Byte>
    var pendingDataLines: seq<string>

    /** Everything the connector still has to report, whatever the chunk boundaries. */
    ghost function Due(): seq<Outcome<V>>
      reads this
    {
      Outcomes(codec, pendingDataLines,
               Stream(codec, lineBuffer + if response.Some? then BytesOf(response.value) else []))
    }

    constructor (codec: Codec<V>)
      ensures this.codec == codec && response == None && lineBuffer == [] && pendingDataLines == []
    {
      this.codec := codec;
      response := None;
      lineBuffer := [];
      pendingDataLines := [];
    }

    /** `answer` is the outcome of the HTTP request: its reads, or None when it failed. */
    method Connect(answer: Option<seq<Poll>>) returns (ok: bool)
      modifies this
      ensures ok == answer.Some?
      ensures ok ==> response == answer && lineBuffer == [] && pendingDataLines == []
      ensures ok ==> Due() == Batch(codec, BytesOf(answer.value))
      ensures !ok ==> unchanged(this)
    {
      if answer.None? {
        return false;
      }
      response := answer;
      lineBuffer := [];
      pendingDataLines := [];
      assert [] + BytesOf(answer.value) == BytesOf(answer.value);
      OutcomesOfStream(codec, BytesOf(answer.value));
      return true;
    }

    /** Takes the first complete line out of the buffer. */
    method NextLine() returns (line: Option<string>)
      modifies this`lineBuffer
      ensures LF !in old(lineBuffer) ==> line == None && lineBuffer == old(lineBuffer)
      ensures LF in old(lineBuffer) ==>
        var n := Position(old(lineBuffer), LF);
        line == Some(codec.lossy(old(lineBuffer)[..n])) && lineBuffer == old(lineBuffer)[n + 1..]
    {
      var n := 0;
      while n < |lineBuffer| && lineBuffer[n] != LF
        invariant 0 <= n <= |lineBuffer|
        invariant LF !in lineBuffer[..n]
      {
        assert lineBuffer[..n + 1] == lineBuffer[..n] + [lineBuffer[n]];
        n := n + 1;
      }
      if n == |lineBuffer| {
        assert lineBuffer[..n] == lineBuffer;
        return None;
      }
      PositionIs(lineBuffer, LF, n);
      line := Some(codec.lossy(lineBuffer[..n]));
      lineBuffer := lineBuffer[n + 1..];
    }

    /** Works through the complete lines in the buffer up to the first event. */
    method TryParseBufferedEvent() returns (outcome: Option<Outcome<V>>)
      modifies this`lineBuffer, this`pendingDataLines
      ensures outcome.Some? ==> old(Due()) == [outcome.value] + Due()
      ensures outcome.Some? ==> outcome.value.Payload? || outcome.value.BadJson?
      ensures outcome.None? ==> Due() == old(Due()) && LF !in lineBuffer
    {
      ghost var rest := if response.Some? then BytesOf(response.value) else [];
      while true
        invariant Due() == old(Due())
        decreases |lineBuffer|
      {
        ghost var before, held := lineBuffer, pendingDataLines;
        var next := NextLine();
        if next.None? {
          return None;
        }
        ghost var later := Stream(codec, lineBuffer + rest);
        assert old(Due()) == After(codec, held, Classify(next.value), later) by {
          BufferStep(codec, held, before, rest);
        }
        outcome := HandleLine(next.value, later);
        assert Due() == Outcomes(codec, pendingDataLines, later);
        if outcome.Some? {
          return outcome;
        }
      }
    }

    /** One decoded line: a blank one completes the pending event, data is kept, the rest is ignored. */
    method HandleLine(decoded: string, ghost later: seq<Line>) returns (outcome: Option<Outcome<V>>)
      modifies this`pendingDataLines
      ensures outcome.Some? ==>
        After(codec, old(pendingDataLines), Classify(decoded), later) == [outcome.value] + Outcomes(codec, pendingDataLines, later)
      ensures outcome.Some? ==> outcome.value.Payload? || outcome.value.BadJson?
      ensures outcome.None? ==>
        After(codec, old(pendingDataLines), Classify(decoded), later) == Outcomes(codec, pendingDataLines, later)
    {
      var line := TrimEndCR(decoded);
      if line == "" {
        if pendingDataLines == [] {
          return None;
        }
        var raw := Join(pendingDataLines);
        pendingDataLines := [];
        return Some(Verdict(codec, raw));
      }
      if line[0] == ':' {
        return None;
      }
      if "data:" <= line {
        pendingDataLines := pendingDataLines + [TrimStart(line[5..])];
      }
      return None;
    }

    /** Delivers the first outcome due; the stream's end is reported only when nothing is due. */
    method NextPayload() returns (outcome: Outcome<V>)
      modifies this`lineBuffer, this`pendingDataLines, this`response
      ensures old(Due()) != [] ==> old(Due()) == [outcome] + Due() && (outcome.Payload? || outcome.BadJson?)
      ensures old(Due()) == [] && old(response).None? ==> outcome == NotConnected
      ensures old(Due()) == [] && old(response).Some? ==> outcome == StopOf(old(response).value)
      ensures old(response).None? <==> response.None?
      ensures old(response).Some? ==> StopOf<V>(response.value) == StopOf(old(response).value) || outcome == ReadFailed
    {
      while true
        invariant Due() == old(Due())
        invariant old(response).None? <==> response.None?
        invariant response.Some? ==> StopOf<V>(response.value) == StopOf(old(response).value)
        decreases if response.Some? then |response.value| else 0
      {
        var parsed := TryParseBufferedEvent();
        if parsed.Some? {
          return parsed.value;
        }
        NothingDue(codec, pendingDataLines, lineBuffer);
        assert lineBuffer + [] == lineBuffer;
        if response.None? {
          return NotConnected;
        }
        var polls := response.value;
        if polls == [] {
          return Ended;
        }
        response := Some(polls[1..]);
        match polls[0] {
          case TimedOut =>
          case Failed =>
            return ReadFailed;
          case Chunk(bytes) =>
            assert lineBuffer + (bytes + BytesOf(polls[1..])) == (lineBuffer + bytes) + BytesOf(polls[1..]);
            lineBuffer := lineBuffer + bytes;
        }
      }
    }
  }

  /** Asks for payloads until the response stops, past payloads that are not JSON. */
  method Drain<V>(connector: HttpSseConnector<V>) returns (outcomes: seq<Outcome<V>>, stop: Outcome<V>)
    requires connector.response.Some?
    modifies connector
    ensures outcomes == old(connector.Due())
    ensures stop == StopOf(old(connector.response).value)
  {
    outcomes := [];
    ghost var all := connector.Due();
    ghost var due := all;
    while true
      invariant connector.response.Some?
      invariant due == connector.Due()
      invariant outcomes + due == all
      invariant StopOf<V>(connector.response.value) == StopOf(old(connector.response).value)
      decreases |due|
    {
      var outcome := connector.NextPayload();
      if !(outcome.Payload? || outcome.BadJson?) {
        assert due == [];
        return outcomes, outcome;
      }
      ConcatAssociative(outcomes, [outcome], connector.Due());
      outcomes := outcomes + [outcome];
      due := connector.Due();
    }
  }

  /** Whatever the chunk boundaries and time-outs, the outcomes are the batch parse of the bytes
      delivered, and the end is reported after all of them. */
  method ReadAll<V>(codec: Codec<V>, polls: seq<Poll>) returns (outcomes: seq<Outcome<V>>, stop: Outcome<V>)
    ensures outcomes == Batch(codec, BytesOf(polls))
    ensures stop == StopOf(polls)
  {
    var connector := new HttpSseConnector(codec);
    var ok := connector.Connect(Some(polls));
    outcomes, stop := Drain(connector);
  }

  // ---- the worker's loop ----

  /** The payloads before the first one that is not JSON. */
  function BeforeBadJson<V>(outcomes: seq<Outcome<V>>): (handled: seq<Outcome<V>>)
    ensures handled <= outcomes
    ensures forall i :: 0 <= i < |handled| ==> !handled[i].BadJson?
    ensures handled == outcomes || outcomes[|handled|].BadJson?
  {
    if outcomes == [] || outcomes[0].BadJson? then []
    else
      assert outcomes == [outcomes[0]] + outcomes[1..];
      [outcomes[0]] + BeforeBadJson(outcomes[1..])
  }

  lemma BeforeBadJsonIs<V>(outcomes: seq<Outcome<V>>, handled: seq<Outcome<V>>)
    requires handled <= outcomes
    requires forall i :: 0 <= i < |handled| ==> !handled[i].BadJson?
    requires handled == outcomes || outcomes[|handled|].BadJson?
    ensures handled == BeforeBadJson(outcomes)
  {
    var other := BeforeBadJson(outcomes);
    assert |handled| == |other|;
  }

  /** One connection of the stream worker, with every payload processed without error: it leaves at
      the first error of any kind, so after a payload that is not JSON the rest of the stream is lost. */
  method RunHttpSseLoop<V>(codec: Codec<V>, polls: seq<Poll>) returns (handled: seq<Outcome<V>>, stop: Outcome<V>)
    ensures handled == BeforeBadJson(Batch(codec, BytesOf(polls)))
    ensures stop == if |handled| < |Batch(codec, BytesOf(polls))| then Batch(codec, BytesOf(polls))[|handled|]
                    else StopOf(polls)
  {
    var connector := new HttpSseConnector(codec);
    var ok := connector.Connect(Some(polls));
    handled := [];
    ghost var all := connector.Due();
    ghost var due := all;
    while true
      invariant connector.response.Some?
      invariant due == connector.Due()
      invariant handled + due == all
      invariant forall i :: 0 <= i < |handled| ==> !handled[i].BadJson?
      invariant StopOf<V>(connector.response.value) == StopOf(polls)
      decreases |due|
    {
      var outcome := connector.NextPayload();
      if !outcome.Payload? {
        assert due == [] ==> handled + [] == handled;
        BeforeBadJsonIs(all, handled);
        return handled, outcome;
      }
      ConcatAssociative(handled, [outcome], connector.Due());
      handled := handled + [outcome];
      due := connector.Due();
    }
  }

  // ---- laws of the batch parse ----

  lemma SplitAtLF(bytes: seq<Byte>) returns (line: seq<Byte>, rest: seq<Byte>)
    requires LF in bytes
    ensures bytes == line + [LF] + rest && LF !in line
    ensures Lines(bytes) == [line] + Lines(rest) && Unfinished(bytes) == Unfinished(rest)
  {
    var n := Position(bytes, LF);
    line, rest := bytes[..n], bytes[n + 1..];
  }

  lemma {:induction false} LinesConcat(a: seq<Byte>, b: seq<Byte>)
    ensures Lines(a + b) == Lines(a) + Lines(Unfinished(a) + b)
    decreases |a|
  {
    if LF !in a {
      assert Lines(a) == [] && Unfinished(a) == a;
    } else {
      var line, rest := SplitAtLF(a);
      LinesConcat(rest, b);
      ConcatAssociative(line + [LF], rest, b);
      FirstLine(line, rest + b);
      ConcatAssociative([line], Lines(rest), Lines(Unfinished(rest) + b));
    }
  }

  lemma {:induction false} UnfinishedHasNoLF(bytes: seq<Byte>)
    ensures LF !in Unfinished(bytes)
    decreases |bytes|
  {
    if LF in bytes {
      var line, rest := SplitAtLF(bytes);
      UnfinishedHasNoLF(rest);
    }
  }

  lemma {:induction false} OutcomesGrow<V>(codec: Codec<V>, pending: seq<string>, a: seq<Line>, b: seq<Line>)
    ensures Outcomes(codec, pending, a) <= Outcomes(codec, pending, a + b)
    decreases a
  {
    if a != [] {
      assert a + b == [a[0]] + (a[1..] + b);
      OutcomesStep(codec, pending, a[0], a[1..] + b);
      match a[0]
      case Blank => OutcomesGrow(codec, [], a[1..], b);
      case Data(text) => OutcomesGrow(codec, pending + [text], a[1..], b);
      case Ignored => OutcomesGrow(codec, pending, a[1..], b);
    }
  }

  lemma StreamConcat<V>(codec: Codec<V>, bytes: seq<Byte>, more: seq<Byte>)
    ensures Stream(codec, bytes + more) == Stream(codec, bytes) + Stream(codec, Unfinished(bytes) + more)
  {
    LinesConcat(bytes, more);
  }

  /** What has been reported stays reported: more bytes only add outcomes, and an unfinished last
      line adds none. */
  lemma BatchGrows<V>(codec: Codec<V>, bytes: seq<Byte>, more: seq<Byte>)
    ensures Batch(codec, bytes) <= Batch(codec, bytes + more)
    ensures LF !in more ==> Batch(codec, bytes + more) == Batch(codec, bytes)
  {
    OutcomesOfStream(codec, bytes);
    OutcomesOfStream(codec, bytes + more);
    StreamConcat(codec, bytes, more);
    OutcomesGrow(codec, [], Stream(codec, bytes), Stream(codec, Unfinished(bytes) + more));
    if LF !in more {
      UnfinishedHasNoLF(bytes);
      assert Stream(codec, Unfinished(bytes) + more) == [];
      assert Stream(codec, bytes) + [] == Stream(codec, bytes);
    }
  }

  // ---- what a line means, over its text ----

  function CRs(n: nat): string {
    if n == 0 then "" else CRs(n - 1) + "\r"
  }

  predicate EndsInCR(s: string) {
    s != "" && s[|s| - 1] == '\r'
  }

  lemma {:induction false} TrimEndCRs(body: string, n: nat)
    requires !EndsInCR(body)
    ensures TrimEndCR(body + CRs(n)) == body
  {
    if n == 0 {
      assert body + "" == body;
    } else {
      assert body + CRs(n) == (body + CRs(n - 1)) + "\r";
      assert (body + CRs(n))[..|body + CRs(n)| - 1] == body + CRs(n - 1);
      TrimEndCRs(body, n - 1);
    }
  }

  predicate AllWhitespace(s: string) {
    forall i :: 0 <= i < |s| ==> IsWhitespace(s[i])
  }

  lemma {:induction false} TrimsExactly(blanks: string, text: string)
    requires AllWhitespace(blanks) && (text == "" || !IsWhitespace(text[0]))
    ensures TrimStart(blanks + text) == text
  {
    if blanks == "" {
      assert blanks + text == text;
    } else {
      assert (blanks + text)[1..] == blanks[1..] + text;
      TrimsExactly(blanks[1..], text);
    }
  }

  /** A line that is "data:", whitespace and a text, with any number of CRs after it, is data with that
      text. No space is needed after the colon. */
  lemma DataLineExactly(blanks: string, text: string, crs: nat)
    requires AllWhitespace(blanks) && (text == "" || !IsWhitespace(text[0])) && !EndsInCR(blanks + text)
    ensures Classify("data:" + blanks + text + CRs(crs)) == Data(text)
  {
    var body := "data:" + (blanks + text);
    assert "data:" + blanks + text == body;
    assert !EndsInCR(body) by { assert |blanks + text| > 0 ==> body[|body| - 1] == (blanks + text)[|blanks + text| - 1]; }
    TrimEndCRs(body, crs);
    assert body[5..] == blanks + text;
    TrimsExactly(blanks, text);
  }

  /** Any other line that is not just CRs is ignored. */
  lemma OtherLineExactly(body: string, crs: nat)
    requires body != "" && !EndsInCR(body) && !("data:" <= body)
    ensures Classify(body + CRs(crs)) == Ignored
  {
    TrimEndCRs(body, crs);
  }

  /** A line of CRs alone is blank. */
  lemma BlankLineExactly(crs: nat)
    ensures Classify(CRs(crs)) == Blank
  {
    TrimEndCRs("", crs);
    assert "" + CRs(crs) == CRs(crs);
  }

  /** The text cut at its newlines. */
  function SplitAtNewlines(s: string): (lines: seq<string>)
    ensures lines != []
  {
    if s == "" then [""]
    else
      var rest := SplitAtNewlines(s[1..]);
      if s[0] == '\n' then [""] + rest else [[s[0]] + rest[0]] + rest[1..]
  }

  lemma {:induction false} SplitsOff(line: string, rest: string)
    requires '\n' !in line
    ensures SplitAtNewlines(line) == [line]
    ensures SplitAtNewlines(line + "\n" + rest) == [line] + SplitAtNewlines(rest)
  {
    var all := line + "\n" + rest;
    if line == "" {
      assert all[0] == '\n' && all[1..] == rest;
    } else {
      assert all[0] == line[0] && all[1..] == line[1..] + "\n" + rest;
      SplitsOff(line[1..], rest);
      assert line == [line[0]] + line[1..];
    }
  }

  /** Joined data lines come apart at the newlines into the same lines in the same order. */
  lemma {:induction false} JoinSplits(lines: seq<string>)
    requires lines != [] && forall i :: 0 <= i < |lines| ==> '\n' !in lines[i]
    ensures SplitAtNewlines(Join(lines)) == lines
  {
    if |lines| == 1 {
      SplitsOff(lines[0], "");
    } else {
      JoinSplits(lines[1..]);
      SplitsOff(lines[0], Join(lines[1..]));
    }
  }

  // ---- what a response delivers ----

  /** Polls up to a failure deliver their chunks in order and nothing else; a failure ends the stream. */
  lemma {:induction false} ResponseInParts(a: seq<Poll>, b: seq<Poll>)
    ensures Failed !in a ==> BytesOf(a + b) == BytesOf(a) + BytesOf(b)
    ensures Failed in a ==> BytesOf(a + b) == BytesOf(a)
  {
    if a == [] {
      assert a + b == b;
    } else {
      assert (a + b)[1..] == a[1..] + b;
      ResponseInParts(a[1..], b);
      assert a == [a[0]] + a[1..];
      if a[0].Chunk? {
        ConcatAssociative(a[0].bytes, BytesOf(a[1..]), BytesOf(b));
      }
    }
  }

  lemma ResponseOfOne(bytes: seq<Byte>)
    ensures BytesOf([Chunk(bytes)]) == bytes && BytesOf([TimedOut]) == [] && BytesOf([Failed]) == []
  {
  }

  lemma {:induction false} StopExactly<V>(polls: seq<Poll>)
    ensures StopOf<V>(polls) == if Failed in polls then ReadFailed else Ended
  {
    if polls != [] {
      StopExactly<V>(polls[1..]);
      assert polls == [polls[0]] + polls[1..];
    }
  }

  // ---- writing events and reading them back ----

  /** A data line with or without the space, or a comment or other field, ended by LF after any number
      of CRs. */
  datatype Item = DataItem(text: string, spaced: bool, crs: nat) | Noise(line: string, crs: nat)

  /** An event and the CRs of the blank line that ends it. */
  datatype Written = Written(items: seq<Item>, crs: nat)

  function Rendered(item: Item): string {
    match item
    case DataItem(text, spaced, crs) => "data:" + (if spaced then " " else "") + text + CRs(crs)
    case Noise(line, crs) => line + CRs(crs)
  }

  /** Data without leading whitespace or trailing CR; noise is a comment or another field. */
  predicate Writable(item: Item) {
    match item
    case DataItem(text, _, _) => (text == "" || !IsWhitespace(text[0])) && !EndsInCR(text)
    case Noise(line, _) => line != "" && !EndsInCR(line) && !("data:" <= line)
  }

  function Texts(items: seq<Item>): seq<string> {
    if items == [] then []
    else (if items[0].DataItem? then [items[0].text] else []) + Texts(items[1..])
  }

  function WriteLine(encode: string -> seq<Byte>, line: string): seq<Byte> {
    encode(line) + [LF]
  }

  function WriteItems(encode: string -> seq<Byte>, items: seq<Item>): seq<Byte> {
    if items == [] then [] else WriteLine(encode, Rendered(items[0])) + WriteItems(encode, items[1..])
  }

  function WriteEvents(encode: string -> seq<Byte>, events: seq<Written>): seq<Byte> {
    if events == [] then []
    else WriteItems(encode, events[0].items) + (WriteLine(encode, CRs(events[0].crs)) + WriteEvents(encode, events[1..]))
  }

  /** The decoder undoes the encoder on this line, and the encoding holds no LF, as UTF-8 does
      for a line without LF. */
  ghost predicate Faithful<V>(codec: Codec<V>, encode: string -> seq<Byte>, line: string) {
    LF !in encode(line) && codec.lossy(encode(line)) == line
  }

  ghost predicate CanWrite<V>(codec: Codec<V>, encode: string -> seq<Byte>, items: seq<Item>) {
    forall i :: 0 <= i < |items| ==> Writable(items[i]) && Faithful(codec, encode, Rendered(items[i]))
  }

  lemma RenderedReadsBack(item: Item)
    requires Writable(item)
    ensures Classify(Rendered(item)) == if item.DataItem? then Data(item.text) else Ignored
  {
    match item
    case DataItem(text, spaced, crs) =>
      var blanks := if spaced then " " else "";
      assert text == "" ==> blanks + text == blanks;
      assert text != "" ==> (blanks + text)[|blanks + text| - 1] == text[|text| - 1];
      DataLineExactly(blanks, text, crs);
    case Noise(line, crs) => OtherLineExactly(line, crs);
  }

  lemma ItemStep<V>(codec: Codec<V>, encode: string -> seq<Byte>, item: Item, pending: seq<string>, later: seq<Byte>)
    requires Writable(item) && Faithful(codec, encode, Rendered(item))
    ensures Outcomes(codec, pending, Stream(codec, WriteLine(encode, Rendered(item)) + later))
         == Outcomes(codec, pending + Texts([item]), Stream(codec, later))
  {
    StreamStep(codec, encode(Rendered(item)), later);
    RenderedReadsBack(item);
    OutcomesStep(codec, pending, Classify(Rendered(item)), Stream(codec, later));
    assert Texts([item]) == if item.DataItem? then [item.text] else [];
    assert pending + [] == pending;
  }

  lemma BlankStep<V>(codec: Codec<V>, encode: string -> seq<Byte>, crs: nat, pending: seq<string>, rest: seq<Byte>)
    requires Faithful(codec, encode, CRs(crs)) && pending != []
    ensures Outcomes(codec, pending, Stream(codec, WriteLine(encode, CRs(crs)) + rest))
         == [Verdict(codec, Join(pending))] + Outcomes(codec, [], Stream(codec, rest))
  {
    StreamStep(codec, encode(CRs(crs)), rest);
    BlankLineExactly(crs);
    OutcomesStep(codec, pending, Blank, Stream(codec, rest));
  }

  lemma {:induction false} ItemsReadBack<V>(codec: Codec<V>, encode: string -> seq<Byte>, items: seq<Item>, crs: nat,
                                            pending: seq<string>, rest: seq<Byte>)
    requires CanWrite(codec, encode, items) && Faithful(codec, encode, CRs(crs))
    requires pending + Texts(items) != []
    ensures Outcomes(codec, pending, Stream(codec, WriteItems(encode, items) + (WriteLine(encode, CRs(crs)) + rest)))
         == [Verdict(codec, Join(pending + Texts(items)))] + Outcomes(codec, [], Stream(codec, rest))
    decreases items
  {
    var blank := WriteLine(encode, CRs(crs)) + rest;
    if items == [] {
      assert WriteItems(encode, items) + blank == blank;
      assert pending + [] == pending;
      BlankStep(codec, encode, crs, pending, rest);
    } else {
      var first, more := WriteLine(encode, Rendered(items[0])), WriteItems(encode, items[1..]);
      var one := Texts([items[0]]);
      ConcatAssociative(first, more, blank);
      ItemStep(codec, encode, items[0], pending, more + blank);
      assert Texts(items) == one + Texts(items[1..]);
      ConcatAssociative(pending, one, Texts(items[1..]));
      ItemsReadBack(codec, encode, items[1..], crs, pending + one, rest);
    }
  }

  lemma FirstEventReadsBack<V>(codec: Codec<V>, encode: string -> seq<Byte>, w: Written, rest: seq<Byte>)
    requires CanWrite(codec, encode, w.items) && Faithful(codec, encode, CRs(w.crs)) && Texts(w.items) != []
    ensures Batch(codec, WriteItems(encode, w.items) + (WriteLine(encode, CRs(w.crs)) + rest))
         == [Verdict(codec, Join(Texts(w.items)))] + Batch(codec, rest)
  {
    assert [] + Texts(w.items) == Texts(w.items);
    ItemsReadBack(codec, encode, w.items, w.crs, [], rest);
    OutcomesOfStream(codec, WriteItems(encode, w.items) + (WriteLine(encode, CRs(w.crs)) + rest));
    OutcomesOfStream(codec, rest);
  }

  /** Any list of events that each hold a data line, written with or without the space after the colon,
      with comments and other fields in between and with LF or CR LF line ends, is read back event by
      event. */
  lemma {:induction false} WrittenEventsReadBack<V>(codec: Codec<V>, encode: string -> seq<Byte>, events: seq<Written>)
    requires forall i :: 0 <= i < |events| ==>
      CanWrite(codec, encode, events[i].items) && Faithful(codec, encode, CRs(events[i].crs)) && Texts(events[i].items) != []
    ensures Batch(codec, WriteEvents(encode, events))
         == seq(|events|, i requires 0 <= i < |events| => Verdict(codec, Join(Texts(events[i].items))))
  {
    if events == [] {
      assert Batch(codec, []) == [];
    } else {
      WrittenEventsReadBack(codec, encode, events[1..]);
      FirstEventReadsBack(codec, encode, events[0], WriteEvents(encode, events[1..]));
    }
  }

  /** Section 9.2.6 of the WHATWG HTML Standard removes one leading space from a field value. */
  function StandardValue(raw: string): string {
    if raw != "" && raw[0] == ' ' then raw[1..] else raw
  }

  /** The parser strips all leading whitespace; the two agree exactly when the standard's value
      does not itself start with whitespace. */
  lemma TrimMatchesStandardExactly(raw: string)
    ensures TrimStart(raw) == StandardValue(raw)
       <==> StandardValue(raw) == "" || !IsWhitespace(StandardValue(raw)[0])
  {
    TrimStartClean(raw);
    TrimStartClean(StandardValue(raw));
  }

  lemma {:induction false} TrimStartClean(s: string)
    ensures TrimStart(s) == "" || !IsWhitespace(TrimStart(s)[0])
  {
    if s != "" && IsWhitespace(s[0]) {
      TrimStartClean(s[1..]);
    }
  }
}
