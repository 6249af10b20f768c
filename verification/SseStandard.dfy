/** The parser against section 9.2.6 of the WHATWG HTML standard, "Interpreting an event
    stream": exactly where the two agree. Ids and retry times are no part of an event. */
module SseStandard {
  import opened Text
  import opened Sse

  // ---------------------------------------------------------------------------
  // The standard
  // ---------------------------------------------------------------------------

  /** The buffers of the standard, and the events dispatched so far. */
  datatype State = State(kind: string, data: string, events: seq<Event>)

  function Colon(line: string): (i: nat)
    ensures i <= |line| && (i < |line| ==> line[i] == ':') && forall j :: 0 <= j < i ==> line[j] != ':'
  {
    if line == "" || line[0] == ':' then 0 else 1 + Colon(line[1..])
  }

  function Field(line: string): string { line[..Colon(line)] }

  function Value(line: string): string {
    if Colon(line) == |line| then ""
    else
      var v := line[Colon(line) + 1..];
      if " " <= v then v[1..] else v
  }

  function OrMessage(kind: string): string { if kind == "" then "message" else kind }

  function Dispatch(st: State): State {
    if st.data == "" then State("", "", st.events)
    else State("", "", st.events + [Event(OrMessage(st.kind), st.data[..|st.data| - 1])])
  }

  function ProcessLine(st: State, line: string): State {
    if line == "" then Dispatch(st)
    else if Field(line) == "event" then st.(kind := Value(line))
    else if Field(line) == "data" then st.(data := st.data + Value(line) + LF)
    else st
  }

  function Process(st: State, lines: seq<string>): State
    decreases |lines|
  {
    if lines == [] then st else Process(ProcessLine(st, lines[0]), lines[1..])
  }

  /** The lines of a text, which end in CR LF, LF or CR; the last one has not ended. */
  function Lines(text: string): (lines: seq<string>)
    ensures |lines| > 0
  {
    if text == "" then [""]
    else if text[0] == '\r' && |text| > 1 && text[1] == '\n' then [""] + Lines(text[2..])
    else if text[0] == '\n' || text[0] == '\r' then [""] + Lines(text[1..])
    else Extended(text[0], Lines(text[1..]))
  }

  /** A line counts once it has ended; what is pending at the end is discarded. */
  function Standard(text: string): seq<Event> {
    Process(State("", "", []), Init(Lines(text))).events
  }

  /** The text with every line ended by LF. */
  function Normal(text: string): string {
    if text == "" then ""
    else if text[0] != '\r' then [text[0]] + Normal(text[1..])
    else LF + Normal(if |text| > 1 && text[1] == '\n' then text[2..] else text[1..])
  }

  lemma {:induction false} LinesOfNormal(text: string)
    ensures Lines(text) == Split(Normal(text), LF)
    decreases |text|
  {
    if text != "" {
      var rest := if text[0] == '\r' && |text| > 1 && text[1] == '\n' then text[2..] else text[1..];
      var c := if text[0] == '\r' then '\n' else text[0];
      LinesOfNormal(rest);
      assert Normal(text) == [c] + Normal(rest);
      assert Normal(text)[1..] == Normal(rest);
      if c == '\n' {
        assert LF <= Normal(text) && Lines(text) == [""] + Lines(rest);
      } else {
        assert LF[0] == '\n' && Normal(text)[0] == c;
        assert Lines(text) == Extended(c, Lines(rest));
      }
    }
  }

  lemma {:induction false} NormalAlready(text: string)
    requires '\r' !in text
    ensures Normal(text) == text
    decreases |text|
  {
    if text != "" {
      assert text[0] in text;
      NormalAlready(text[1..]);
    }
  }

  lemma {:induction false} ProcessConcat(st: State, a: seq<string>, b: seq<string>)
    ensures Process(st, a + b) == Process(Process(st, a), b)
    decreases |a|
  {
    if a == [] {
      assert a + b == b;
    } else {
      assert (a + b)[1..] == a[1..] + b;
      ProcessConcat(ProcessLine(st, a[0]), a[1..], b);
    }
  }

  lemma {:induction false} ProcessLast(st: State, lines: seq<string>, line: string)
    ensures Process(st, lines + [line]) == ProcessLine(Process(st, lines), line)
  {
    ProcessConcat(st, lines, [line]);
    assert [line][1..] == [];
  }

  // ---------------------------------------------------------------------------
  // What the standard makes of one block
  // ---------------------------------------------------------------------------

  /** The values of the data lines, in order. */
  function Values(lines: seq<string>): seq<string> {
    if lines == [] then []
    else
      var line := Last(lines);
      if Field(line) == "data" then Values(Init(lines)) + [Value(line)] else Values(Init(lines))
  }

  /** The value of the last event line, or nothing. */
  function KindBuffer(lines: seq<string>): string {
    if lines == [] then ""
    else if Field(Last(lines)) == "event" then Value(Last(lines))
    else KindBuffer(Init(lines))
  }

  /** The event of a block, if it has one. */
  function Meaning(lines: seq<string>): seq<Event> {
    if Values(lines) == [] then [] else [Event(OrMessage(KindBuffer(lines)), Join(Values(lines), LF))]
  }

  function Terminated(values: seq<string>): string {
    if values == [] then "" else Terminated(Init(values)) + Last(values) + LF
  }

  lemma {:induction false} TerminatedIsJoined(values: seq<string>)
    requires values != []
    ensures Terminated(values) == Join(values, LF) + LF
    decreases |values|
  {
    assert values == Init(values) + [Last(values)];
    if |values| > 1 {
      TerminatedIsJoined(Init(values));
      JoinSnoc(Init(values), Last(values), LF);
    }
  }

  lemma {:induction false} ProcessBlock(events: seq<Event>, lines: seq<string>)
    requires forall i :: 0 < i < |lines| ==> lines[i] != ""
    ensures Process(State("", "", events), lines) == State(KindBuffer(lines), Terminated(Values(lines)), events)
    decreases |lines|
  {
    if lines != [] {
      var (before, line) := (Init(lines), Last(lines));
      assert lines == before + [line];
      ProcessBlock(events, before);
      ProcessLast(State("", "", events), before, line);
    }
  }

  /** A block and the empty line behind it dispatch the event the block means. */
  lemma {:induction false} BlockDispatches(events: seq<Event>, lines: seq<string>)
    requires forall i :: 0 < i < |lines| ==> lines[i] != ""
    ensures Process(State("", "", events), lines + [""]) == State("", "", events + Meaning(lines))
  {
    ProcessBlock(events, lines);
    ProcessLast(State("", "", events), lines, "");
    if Values(lines) != [] {
      TerminatedIsJoined(Values(lines));
    }
  }

  lemma {:induction false} NoValues(lines: seq<string>)
    requires forall i :: 0 <= i < |lines| ==> Field(lines[i]) != "data"
    ensures Values(lines) == []
    decreases |lines|
  {
    if lines != [] {
      NoValues(Init(lines));
    }
  }

  // ---------------------------------------------------------------------------
  // Blocks and lines of a text
  // ---------------------------------------------------------------------------

  lemma {:induction false} LinesBehind(last: string, rest: string)
    requires '\n' !in last
    ensures Split(last + (GAP + rest), LF) == [last, ""] + Split(rest, LF)
  {
    CharClean(last, '\n');
    SplitPiece(last, LF + rest, LF);
    assert last + (GAP + rest) == last + LF + (LF + rest);
    CharClean("", '\n');
    SplitPiece("", rest, LF);
    assert "" + LF + rest == LF + rest;
    assert [last] + ([""] + Split(rest, LF)) == [last, ""] + Split(rest, LF);
  }

  /** The lines of a block, the empty line, and the lines of the rest. */
  lemma {:induction false} LinesOfFirstBlock(block: string, rest: string)
    ensures Split(block + GAP + rest, LF) == Split(block, LF) + [""] + Split(rest, LF)
  {
    var lines := Split(block, LF);
    SplitResumes(block, GAP + rest, LF);
    assert block + (GAP + rest) == block + GAP + rest;
    SplitFree(block, '\n');
    LinesBehind(Last(lines), rest);
    assert Init(lines) + ([Last(lines), ""] + Split(rest, LF)) == lines + [""] + Split(rest, LF);
  }

  lemma SecondChar(s: string)
    requires |s| >= 2 && !(GAP <= s) && s[0] == '\n'
    ensures s[1] != '\n'
  {
    assert s[..2] == [s[0], s[1]];
  }

  /** Only the first line of a block may be empty. */
  lemma {:induction false} BlockLines(block: string)
    requires Clean(block, GAP)
    ensures forall i :: 0 < i < |Split(block, LF)| ==> Split(block, LF)[i] != ""
    decreases |block|
  {
    if block != "" {
      CleanTail(block, GAP);
      BlockLines(block[1..]);
      if block[0] == '\n' {
        assert (block + GAP)[0..] == block + GAP;
        SecondChar(block + GAP);
        FirstNotEmpty(block[1..]);
      }
    }
  }

  lemma {:induction false} FirstNotEmpty(s: string)
    requires s != "" && s[0] != '\n'
    ensures Split(s, LF)[0] != ""
  {}

  lemma {:induction false} TailLines(tail: string)
    requires Split(tail, GAP) == [tail]
    ensures forall i :: 0 < i < |Split(tail, LF)| - 1 ==> Split(tail, LF)[i] != ""
    decreases |tail|
  {
    if |tail| >= 2 {
      assert !(GAP <= tail);
      SingleSplit(tail[1..], GAP);
      TailLines(tail[1..]);
      if tail[0] == '\n' {
        SecondChar(tail);
        FirstNotEmpty(tail[1..]);
      }
    }
  }

  lemma {:induction false} TailDispatchesNothing(events: seq<Event>, tail: string)
    requires Split(tail, GAP) == [tail]
    ensures Process(State("", "", events), Init(Split(tail, LF))).events == events
  {
    TailLines(tail);
    ProcessBlock(events, Init(Split(tail, LF)));
  }

  lemma {:induction false} BlankMeansNothing(block: string)
    requires Trim(block) == ""
    ensures Values(Split(block, LF)) == []
  {
    TrimBlank(block);
    var lines := Split(block, LF);
    forall i | 0 <= i < |lines|
      ensures Field(lines[i]) != "data"
    {
      if Field(lines[i]) == "data" {
        assert lines[i][0] == 'd' by { assert Field(lines[i])[0] == "data"[0]; }
        SplitChars(block, LF, i, 'd');
      }
    }
    NoValues(lines);
  }

  /** The events the blocks of a stream mean, one after the other. */
  function Meanings(blocks: seq<string>): seq<Event> {
    if blocks == [] then [] else Meaning(Split(blocks[0], LF)) + Meanings(blocks[1..])
  }

  lemma {:induction false} FirstBlockRuns(events: seq<Event>, text: string, block: string, rest: string)
    requires text == block + GAP + rest && Clean(block, GAP)
    ensures Process(State("", "", events), Init(Split(text, LF))) ==
            Process(State("", "", events + Meaning(Split(block, LF))), Init(Split(rest, LF)))
  {
    LinesOfFirstBlock(block, rest);
    assert Init(Split(text, LF)) == (Split(block, LF) + [""]) + Init(Split(rest, LF));
    ProcessConcat(State("", "", events), Split(block, LF) + [""], Init(Split(rest, LF)));
    BlockLines(block);
    BlockDispatches(events, Split(block, LF));
  }

  lemma {:induction false} RunMeans(events: seq<Event>, text: string)
    ensures Process(State("", "", events), Init(Split(text, LF))).events == events + Meanings(Init(Split(text, GAP)))
    decreases |text|
  {
    var blocks := Split(text, GAP);
    if |blocks| == 1 {
      SingleSplit(text, GAP);
      TailDispatchesNothing(events, text);
    } else {
      var rest := FirstPiece(text, GAP);
      FirstBlockRuns(events, text, blocks[0], rest);
      RunMeans(events + Meaning(Split(blocks[0], LF)), rest);
      assert Init(blocks)[0] == blocks[0] && Init(blocks)[1..] == Init(Split(rest, GAP));
    }
  }

  /** However the lines end, the standard dispatches the event of every block and nothing for the
      unterminated tail. */
  lemma {:induction false} StandardMeans(text: string)
    ensures Standard(text) == Meanings(Init(Split(Normal(text), GAP)))
  {
    LinesOfNormal(text);
    RunMeans([], Normal(text));
  }

  // ---------------------------------------------------------------------------
  // Where the parser agrees
  // ---------------------------------------------------------------------------

  /** Line k is the only data line. */
  ghost predicate SoleData(lines: seq<string>, k: nat) {
    k < |lines| && Field(lines[k]) == "data" && forall i :: 0 <= i < |lines| && i != k ==> Field(lines[i]) != "data"
  }

  /** The parser reads the data line as the standard does. */
  ghost predicate Readable(line: string) { "data: " <= line || Value(line) == "" }

  ghost predicate DataAgrees(lines: seq<string>) { exists k: nat :: SoleData(lines, k) && Readable(lines[k]) }

  /** What stands after the last "event: " that begins a line, trimmed. */
  function LastTyped(lines: seq<string>): string {
    if lines == [] then "message"
    else if "event: " <= Last(lines) then Trim(Last(lines)[7..])
    else LastTyped(Init(lines))
  }

  /** The last event line decides: written with a space its type is trimmed and not empty, written
      otherwise it names the type that stands after the last "event: " before it. */
  ghost predicate KindAgrees(lines: seq<string>) {
    if lines == [] then true
    else
      var line := Last(lines);
      if Field(line) != "event" then KindAgrees(Init(lines))
      else if "event: " <= line then line != "event: " && Trimmed(line[7..])
      else OrMessage(Value(line)) == LastTyped(Init(lines))
  }

  ghost predicate Agrees(lines: seq<string>) { DataAgrees(lines) && KindAgrees(lines) }

  ghost predicate BlockAgrees(block: string) { Trim(block) == "" || Agrees(Split(block, LF)) }

  ghost predicate AllAgree(blocks: seq<string>) { forall i :: 0 <= i < |blocks| ==> BlockAgrees(blocks[i]) }

  lemma {:induction false} ColonAt(line: string, i: nat)
    requires i < |line| && line[i] == ':' && forall j :: 0 <= j < i ==> line[j] != ':'
    ensures Colon(line) == i
  {}

  lemma EventField(line: string)
    requires "event: " <= line
    ensures Field(line) == "event" && Value(line) == line[7..] && !("data: " <= line)
  {
    assert line == "event: " + line[7..];
    ColonAt(line, 5);
    assert line[6..][0] == ' ' && line[6..][1..] == line[7..];
    assert line[..5] == "event";
    assert line[0] == 'e';
  }

  lemma DataField(line: string)
    requires "data: " <= line
    ensures Field(line) == "data" && Value(line) == line[6..] && !("event: " <= line)
  {
    assert line == "data: " + line[6..];
    ColonAt(line, 4);
    assert line[5..][0] == ' ' && line[5..][1..] == line[6..];
    assert line[..4] == "data";
    assert line[0] == 'd';
  }

  lemma {:induction false} ReadLast(lines: seq<string>)
    requires lines != []
    ensures var e := Event("message", ""); ReadLines(e, lines) == ReadLine(ReadLines(e, Init(lines)), Last(lines))
  {
    assert lines == Init(lines) + [Last(lines)];
    ReadLinesLast(Event("message", ""), Init(lines), Last(lines));
  }

  lemma {:induction false} ReadsLastTyped(lines: seq<string>)
    ensures ReadLines(Event("message", ""), lines).kind == LastTyped(lines)
    decreases |lines|
  {
    if lines != [] {
      ReadsLastTyped(Init(lines));
      ReadLast(lines);
    }
  }

  lemma {:induction false} KindExactly(lines: seq<string>)
    ensures OrMessage(KindBuffer(lines)) == LastTyped(lines) <==> KindAgrees(lines)
    decreases |lines|
  {
    if lines != [] {
      var line := Last(lines);
      KindExactly(Init(lines));
      if "event: " <= line {
        EventField(line);
        assert line == "event: " + line[7..];
        TrimTrims(line[7..]);
        if Trimmed(line[7..]) {
          TrimKeeps(line[7..]);
        }
      }
    }
  }

  lemma {:induction false} NoData(lines: seq<string>)
    requires forall i :: 0 <= i < |lines| ==> Field(lines[i]) != "data"
    ensures ReadLines(Event("message", ""), lines).data == ""
    decreases |lines|
  {
    if lines != [] {
      NoData(Init(lines));
      ReadLast(lines);
      if "data: " <= Last(lines) {
        DataField(Last(lines));
      }
    }
  }

  /** A single data line is all of the data on both sides. */
  lemma {:induction false} SingleData(lines: seq<string>, k: nat)
    requires SoleData(lines, k)
    ensures Values(lines) == [Value(lines[k])]
    ensures ReadLines(Event("message", ""), lines).data == if "data: " <= lines[k] then Value(lines[k]) else ""
    decreases |lines|
  {
    ReadLast(lines);
    var line := Last(lines);
    if "data: " <= line {
      DataField(line);
    }
    if k == |lines| - 1 {
      NoValues(Init(lines));
      NoData(Init(lines));
      if "event: " <= line {
        EventField(line);
      }
    } else {
      SingleData(Init(lines), k);
    }
  }

  lemma {:induction false} SomeValue(lines: seq<string>)
    ensures Values(lines) == [] ==> forall i :: 0 <= i < |lines| ==> Field(lines[i]) != "data"
    decreases |lines|
  {
    if lines != [] {
      SomeValue(Init(lines));
    }
  }

  lemma {:induction false} OneValue(lines: seq<string>) returns (k: nat)
    requires |Values(lines)| == 1
    ensures SoleData(lines, k)
    decreases |lines|
  {
    if Field(Last(lines)) == "data" {
      k := |lines| - 1;
      SomeValue(Init(lines));
    } else {
      k := OneValue(Init(lines));
    }
  }

  lemma {:induction false} JoinHasSep(parts: seq<string>)
    requires |parts| > 1
    ensures '\n' in Join(parts, LF)
  {
    assert Join(parts, LF)[|parts[0]|] == '\n';
  }

  lemma {:induction false} SoleDataExactly(lines: seq<string>, k: nat)
    requires SoleData(lines, k)
    ensures Values(lines) == [Value(lines[k])]
    ensures Value(lines[k]) == ReadLines(Event("message", ""), lines).data <==> DataAgrees(lines)
  {
    SingleData(lines, k);
    assert forall m: nat :: SoleData(lines, m) ==> m == k;
  }

  /** The parser keeps one line of data, which has no line break. */
  lemma {:induction false} DataExactly(lines: seq<string>)
    requires forall i :: 0 <= i < |lines| ==> '\n' !in lines[i]
    ensures Values(lines) != [] && Join(Values(lines), LF) == ReadLines(Event("message", ""), lines).data <==>
            DataAgrees(lines)
  {
    if |Values(lines)| == 1 {
      var k := OneValue(lines);
      SoleDataExactly(lines, k);
    } else {
      if DataAgrees(lines) {
        var k: nat :| SoleData(lines, k) && Readable(lines[k]);
        SoleDataExactly(lines, k);
        assert false;
      }
      if |Values(lines)| > 1 {
        ReadLinesPrintable(Event("message", ""), lines);
        JoinHasSep(Values(lines));
      }
    }
  }

  lemma {:induction false} BlockExactly(block: string)
    ensures ReadBlocks([block]) == Meaning(Split(block, LF)) <==> BlockAgrees(block)
    ensures |Meaning(Split(block, LF))| <= |ReadBlocks([block])|
  {
    var lines := Split(block, LF);
    assert [block][1..] == [];
    if Trim(block) == "" {
      BlankMeansNothing(block);
    } else {
      SplitFree(block, '\n');
      KindExactly(lines);
      ReadsLastTyped(lines);
      DataExactly(lines);
      assert ReadBlocks([block]) == [ReadBlock(block)];
    }
  }

  lemma AllAgreeCons(block: string, rest: seq<string>)
    ensures AllAgree([block] + rest) <==> BlockAgrees(block) && AllAgree(rest)
  {
    var blocks := [block] + rest;
    assert blocks[0] == block && forall i :: 0 <= i < |rest| ==> rest[i] == blocks[i + 1];
  }

  lemma {:induction false} BlocksExactly(blocks: seq<string>)
    ensures |Meanings(blocks)| <= |ReadBlocks(blocks)|
    ensures ReadBlocks(blocks) == Meanings(blocks) <==> AllAgree(blocks)
    decreases |blocks|
  {
    if blocks != [] {
      var (block, rest) := (blocks[0], blocks[1..]);
      assert blocks == [block] + rest;
      BlockExactly(block);
      BlocksExactly(rest);
      ReadBlocksConcat([block], rest);
      SameParts(ReadBlocks([block]), ReadBlocks(rest), Meaning(Split(block, LF)), Meanings(rest));
      AllAgreeCons(block, rest);
    }
  }

  lemma SameParts(a: seq<Event>, b: seq<Event>, c: seq<Event>, d: seq<Event>)
    requires |c| <= |a| && |d| <= |b|
    ensures a + b == c + d <==> a == c && b == d
  {
    if a + b == c + d {
      assert |a| == |c|;
      assert (a + b)[..|a|] == a && (c + d)[..|c|] == c && (a + b)[|a|..] == b && (c + d)[|c|..] == d;
    }
  }

  /** The parser yields what the standard dispatches if and only if every block that is not blank has
      exactly one data line, which starts with "data: " or is empty, and event lines of agreeing type. */
  lemma {:induction false} ParserMeetsStandard(text: string)
    requires '\r' !in text
    ensures StreamEvents(text) == Standard(text) <==> AllAgree(Init(Split(text, GAP)))
  {
    StandardMeans(text);
    NormalAlready(text);
    BlocksExactly(Init(Split(text, GAP)));
  }

  /** Blocks as daemons write them: one data line, and event lines with a trimmed type. */
  lemma PlainBlockAgrees(lines: seq<string>, k: nat)
    requires SoleData(lines, k) && "data: " <= lines[k]
    requires forall i :: 0 <= i < |lines| && Field(lines[i]) == "event" ==>
               "event: " <= lines[i] && lines[i] != "event: " && Trimmed(lines[i][7..])
    ensures Agrees(lines)
  {
    PlainKindAgrees(lines);
  }

  lemma {:induction false} PlainKindAgrees(lines: seq<string>)
    requires forall i :: 0 <= i < |lines| && Field(lines[i]) == "event" ==>
               "event: " <= lines[i] && lines[i] != "event: " && Trimmed(lines[i][7..])
    ensures KindAgrees(lines)
    decreases |lines|
  {
    if lines != [] {
      PlainKindAgrees(Init(lines));
    }
  }

  // ---------------------------------------------------------------------------
  // Streams on which the two part
  // ---------------------------------------------------------------------------

  ghost predicate OneLine(s: string) { '\n' !in s && '\r' !in s }

  lemma {:induction false} BlockAlone(block: string)
    requires Clean(block, GAP) && '\r' !in block
    ensures StreamEvents(block + GAP) == ReadBlocks([block]) && Standard(block + GAP) == Meaning(Split(block, LF))
  {
    SplitPiece(block, "", GAP);
    assert block + GAP + "" == block + GAP && Split("", GAP) == [""];
    assert Init([block] + [""]) == [block];
    StandardMeans(block + GAP);
    NormalAlready(block + GAP);
    MeaningAlone(block);
  }

  lemma {:induction false} MeaningAlone(block: string)
    ensures Meanings([block]) == Meaning(Split(block, LF))
  {
    assert [block][1..] == [];
  }

  lemma OneLineStream(x: string)
    requires OneLine(x) && x != "" && !IsSpace(x[0])
    ensures StreamEvents(x + GAP) == [ReadLine(Event("message", ""), x)] && Standard(x + GAP) == Meaning([x])
  {
    NoGapInside(x);
    BlockAlone(x);
    CharClean(x, '\n');
    SplitWhole(x, LF);
    TrimNotBlank(x);
    assert [x][1..] == [];
    assert ReadLines(ReadLine(Event("message", ""), x), []) == ReadLine(Event("message", ""), x);
  }

  lemma TwoLineStream(x: string, y: string)
    requires OneLine(x) && OneLine(y) && x != "" && !IsSpace(x[0]) && y != ""
    ensures StreamEvents(x + LF + y + GAP) == [ReadLine(ReadLine(Event("message", ""), x), y)]
    ensures Standard(x + LF + y + GAP) == Meaning([x, y])
  {
    var block := x + LF + y;
    assert forall i :: 0 <= i < |block| && i != |x| ==> block[i] != '\n';
    NoGapInside(block);
    BlockAlone(block);
    CharClean(x, '\n');
    CharClean(y, '\n');
    SplitPiece(x, y, LF);
    SplitWhole(y, LF);
    assert Split(block, LF) == [x, y];
    TrimNotBlank(block);
    ReadTwo(Event("message", ""), x, y);
    assert [block][1..] == [];
  }

  lemma {:induction false} ReadTwo(e: Event, x: string, y: string)
    ensures ReadLines(e, [x, y]) == ReadLine(ReadLine(e, x), y)
  {
    assert [x, y][1..] == [y] && [y][1..] == [];
    assert ReadLines(ReadLine(e, x), [y]) == ReadLine(ReadLine(e, x), y);
  }

  lemma MeaningOfTwo(x: string, y: string)
    requires Field(y) == "data"
    ensures Field(x) == "data" ==> Meaning([x, y]) == [Event("message", Value(x) + LF + Value(y))]
    ensures Field(x) == "event" ==> Meaning([x, y]) == [Event(OrMessage(Value(x)), Value(y))]
  {
    assert Init([x, y]) == [x] && Init([x]) == [];
    assert Values([x]) == if Field(x) == "data" then [Value(x)] else [];
    assert KindBuffer([x]) == if Field(x) == "event" then Value(x) else "";
    var (v, w) := (Value(x), Value(y));
    assert Values([x, y]) == Values([x]) + [w];
    assert [v, w][1..] == [w] && Join([v, w], LF) == v + LF + w && Join([w], LF) == w;
  }

  /** Of two data lines the parser keeps the second; the standard joins them. */
  lemma OnlyLastData(a: string, b: string)
    requires OneLine(a) && OneLine(b)
    ensures var text := "data: " + a + LF + ("data: " + b) + GAP;
            StreamEvents(text) == [Event("message", b)] && Standard(text) == [Event("message", a + LF + b)]
  {
    var (x, y) := ("data: " + a, "data: " + b);
    DataField(x);
    DataField(y);
    assert x[6..] == a && y[6..] == b;
    TwoLineStream(x, y);
    MeaningOfTwo(x, y);
  }

  /** Without a data line the parser yields an event; the standard dispatches none. */
  lemma NoDataLine(kind: string)
    requires OneLine(kind)
    ensures var text := "event: " + kind + GAP; StreamEvents(text) == [Event(Trim(kind), "")] && Standard(text) == []
  {
    var x := "event: " + kind;
    EventField(x);
    assert x[7..] == kind;
    OneLineStream(x);
    assert Init([x]) == [] && Values([x]) == [];
  }

  /** The parser trims types; the standard does not. */
  lemma TrimsTypes(kind: string, data: string)
    requires OneLine(kind) && OneLine(data) && kind != ""
    ensures var text := "event: " + kind + LF + ("data: " + data) + GAP;
            StreamEvents(text) == [Event(Trim(kind), data)] && Standard(text) == [Event(kind, data)]
  {
    var (x, y) := ("event: " + kind, "data: " + data);
    EventField(x);
    DataField(y);
    assert x[7..] == kind && y[6..] == data;
    TwoLineStream(x, y);
    MeaningOfTwo(x, y);
  }

  lemma {:induction false} LineAtCrLf(line: string, rest: string)
    requires OneLine(line)
    ensures Lines(line + "\r\n" + rest) == [line] + Lines(rest)
    decreases |line|
  {
    var text := line + "\r\n" + rest;
    if line == "" {
      assert text[0] == '\r' && text[1] == '\n' && text[2..] == rest;
    } else {
      assert line[0] in line && text[1..] == line[1..] + "\r\n" + rest;
      LineAtCrLf(line[1..], rest);
      assert [line[0]] + line[1..] == line;
    }
  }

  /** Every LF belongs to a CR LF. */
  ghost predicate LfAfterCr(text: string) { forall i :: 0 <= i < |text| && text[i] == '\n' ==> i > 0 && text[i - 1] == '\r' }

  ghost predicate NoDataIn(block: string) {
    forall i :: 0 <= i < |Split(block, LF)| ==> Field(Split(block, LF)[i]) != "data"
  }

  lemma {:induction false} NothingMeant(blocks: seq<string>)
    ensures Meanings(blocks) == [] <==> forall i :: 0 <= i < |blocks| ==> NoDataIn(blocks[i])
    decreases |blocks|
  {
    if blocks != [] {
      var lines := Split(blocks[0], LF);
      NothingMeant(blocks[1..]);
      SomeValue(lines);
      if NoDataIn(blocks[0]) {
        NoValues(lines);
      }
      assert forall i :: 1 <= i < |blocks| ==> blocks[i] == blocks[1..][i - 1];
    }
  }

  /** Lines may end in CR LF or CR; then the parser finds no block at all, and the standard agrees if and
      only if there is no data in any. */
  lemma {:induction false} CrLfExactly(text: string)
    requires LfAfterCr(text)
    ensures StreamEvents(text) == []
    ensures var blocks := Init(Split(Normal(text), GAP));
            Standard(text) == [] <==> forall i :: 0 <= i < |blocks| ==> NoDataIn(blocks[i])
  {
    NoGap(text);
    assert Init([text]) == [];
    StandardMeans(text);
    NothingMeant(Init(Split(Normal(text), GAP)));
  }

  /** One such stream: the standard dispatches its event. */
  lemma NoBlockAtCrLf(data: string)
    requires OneLine(data)
    ensures var text := "data: " + data + "\r\n" + "\r\n";
            StreamEvents(text) == [] && Standard(text) == [Event("message", data)]
  {
    var x := "data: " + data;
    var text := x + "\r\n" + "\r\n";
    assert forall i :: 0 <= i < |text| && text[i] == '\n' ==> i == |x| + 1 || i == |x| + 3;
    NoGap(text);
    assert Init([text]) == [];
    LineAtCrLf(x, "\r\n");
    LineAtCrLf("", "");
    assert "" + "\r\n" + "" == "\r\n";
    assert Lines(text) == [x, "", ""];
    assert Init(Lines(text)) == [x] + [""];
    MeaningOfData(data);
    BlockDispatches([], [x]);
  }

  lemma MeaningOfData(data: string)
    ensures Meaning(["data: " + data]) == [Event("message", data)]
  {
    var x := "data: " + data;
    var lines := [x];
    DataField(x);
    assert x[6..] == data && Init(lines) == [] && Last(lines) == x;
    assert Values(lines) == [data];
    assert KindBuffer(lines) == "";
  }

  lemma {:induction false} NoGap(s: string)
    requires forall i :: 0 <= i < |s| - 1 ==> s[i] != '\n' || s[i + 1] != '\n'
    ensures Split(s, GAP) == [s]
    decreases |s|
  {
    if |s| >= 2 {
      assert !(GAP <= s) by { assert s[..2] == [s[0], s[1]]; }
      NoGap(s[1..]);
      assert [s[0]] + s[1..] == s;
    }
  }
}
