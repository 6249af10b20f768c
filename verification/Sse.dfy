/** The incremental parser of the Docker page for server-sent events, from decoded text on. */
module Sse {
  import opened Text

  datatype Event = Event(kind: string, data: string)

  const GAP := "\n\n"
  const LF := "\n"

  // ---------------------------------------------------------------------------
  // One block of lines
  // ---------------------------------------------------------------------------

  function ReadLine(e: Event, line: string): Event {
    if "event: " <= line then e.(kind := Trim(line[7..]))
    else if "data: " <= line then e.(data := line[6..])
    else e
  }

  function ReadLines(e: Event, lines: seq<string>): Event
    decreases |lines|
  {
    if lines == [] then e else ReadLines(ReadLine(e, lines[0]), lines[1..])
  }

  function ReadBlock(block: string): Event { ReadLines(Event("message", ""), Split(block, LF)) }

  function ReadBlocks(blocks: seq<string>): seq<Event> {
    if blocks == [] then []
    else (if Trim(blocks[0]) == "" then [] else [ReadBlock(blocks[0])]) + ReadBlocks(blocks[1..])
  }

  /** The events of a whole text, split once; what follows the last empty line is dropped. */
  function StreamEvents(text: string): seq<Event> { ReadBlocks(Init(Split(text, GAP))) }

  function Concat(pieces: seq<string>): string {
    if pieces == [] then "" else pieces[0] + Concat(pieces[1..])
  }

  lemma {:induction false} ReadLinesLast(e: Event, lines: seq<string>, line: string)
    ensures ReadLines(e, lines + [line]) == ReadLine(ReadLines(e, lines), line)
    decreases |lines|
  {
    if lines == [] {
      assert ([] + [line])[1..] == [];
    } else {
      assert (lines + [line])[1..] == lines[1..] + [line];
      ReadLinesLast(ReadLine(e, lines[0]), lines[1..], line);
    }
  }

  lemma {:induction false} ReadBlocksConcat(a: seq<string>, b: seq<string>)
    ensures ReadBlocks(a + b) == ReadBlocks(a) + ReadBlocks(b)
    decreases |a|
  {
    if a == [] {
      assert a + b == b;
    } else {
      assert (a + b)[1..] == a[1..] + b;
      ReadBlocksConcat(a[1..], b);
    }
  }

  lemma {:induction false} ConcatLast(pieces: seq<string>, r: string)
    ensures Concat(pieces + [r]) == Concat(pieces) + r
    decreases |pieces|
  {
    if pieces == [] {
      assert ([] + [r])[1..] == [];
    } else {
      assert (pieces + [r])[1..] == pieces[1..] + [r];
      ConcatLast(pieces[1..], r);
    }
  }

  // ---------------------------------------------------------------------------
  // The loop over the reads
  // ---------------------------------------------------------------------------

  /** One more read: the buffer carries all that is needed of the text so far. */
  lemma {:induction false} EventsResume(text: string, more: string)
    ensures var parts := Split(Last(Split(text, GAP)) + more, GAP);
            StreamEvents(text + more) == StreamEvents(text) + ReadBlocks(Init(parts)) &&
            Last(Split(text + more, GAP)) == Last(parts)
  {
    var (before, parts) := (Init(Split(text, GAP)), Split(Last(Split(text, GAP)) + more, GAP));
    SplitResumes(text, more, GAP);
    assert Init(before + parts) == before + Init(parts);
    ReadBlocksConcat(before, Init(parts));
  }

  /** parseSSEStream: however the network cuts the text, the events are those of the whole
      text, and exactly its unterminated tail stays in the buffer. */
  method ParseStream(pieces: seq<string>) returns (events: seq<Event>, buf: string)
    ensures events == StreamEvents(Concat(pieces))
    ensures buf == Last(Split(Concat(pieces), GAP))
  {
    events, buf := [], "";
    for n := 0 to |pieces|
      invariant events == StreamEvents(Concat(pieces[..n]))
      invariant buf == Last(Split(Concat(pieces[..n]), GAP))
    {
      ConcatTake(pieces, n);
      var more: seq<Event>;
      more, buf := ReadPiece(buf, pieces[n], Concat(pieces[..n]));
      events := events + more;
    }
    assert pieces[..|pieces|] == pieces;
  }

  lemma ConcatTake(pieces: seq<string>, n: nat)
    requires n < |pieces|
    ensures Concat(pieces[..n + 1]) == Concat(pieces[..n]) + pieces[n]
  {
    assert pieces[..n + 1] == pieces[..n] + [pieces[n]];
    ConcatLast(pieces[..n], pieces[n]);
  }

  /** The body of the loop, after `text` has been read. */
  method ReadPiece(before: string, piece: string, ghost text: string) returns (events: seq<Event>, buf: string)
    requires before == Last(Split(text, GAP))
    ensures StreamEvents(text + piece) == StreamEvents(text) + events
    ensures buf == Last(Split(text + piece, GAP))
  {
    EventsResume(text, piece);
    buf := before + piece;
    var chunks := Split(buf, GAP);
    buf := chunks[|chunks| - 1];
    chunks := chunks[..|chunks| - 1];
    events := ParseChunks(chunks);
  }

  /** The loop over the complete blocks of one read. */
  method ParseChunks(chunks: seq<string>) returns (events: seq<Event>)
    ensures events == ReadBlocks(chunks)
  {
    events := [];
    for n := 0 to |chunks|
      invariant events == ReadBlocks(chunks[..n])
    {
      var chunk := chunks[n];
      assert chunks[..n + 1] == chunks[..n] + [chunk];
      ReadBlocksConcat(chunks[..n], [chunk]);
      assert ReadBlocks([chunk]) == if Trim(chunk) == "" then [] else [ReadBlock(chunk)];
      if Trim(chunk) != "" {
        var e := ParseLines(Split(chunk, LF));
        events := events + [e];
      }
    }
    assert chunks[..|chunks|] == chunks;
  }

  /** The loop over the lines of a block: a later line overrides an earlier one. */
  method ParseLines(lines: seq<string>) returns (e: Event)
    ensures e == ReadLines(Event("message", ""), lines)
  {
    var (kind, data) := ("message", "");
    for n := 0 to |lines|
      invariant Event(kind, data) == ReadLines(Event("message", ""), lines[..n])
    {
      var line := lines[n];
      assert lines[..n + 1] == lines[..n] + [line];
      ReadLinesLast(Event("message", ""), lines[..n], line);
      if "event: " <= line {
        kind := Trim(line[7..]);
      } else if "data: " <= line {
        data := line[6..];
      }
    }
    assert lines[..|lines|] == lines;
    e := Event(kind, data);
  }

  // ---------------------------------------------------------------------------
  // Printing and parsing
  // ---------------------------------------------------------------------------

  function Print(e: Event): string { "event: " + e.kind + "\ndata: " + e.data + GAP }

  function PrintAll(events: seq<Event>): string {
    if events == [] then "" else Print(events[0]) + PrintAll(events[1..])
  }

  ghost predicate Printable(e: Event) {
    '\n' !in e.kind && Trimmed(e.kind) && '\n' !in e.data
  }

  lemma PrintedBlock(e: Event)
    requires Printable(e)
    ensures Clean("event: " + e.kind + "\ndata: " + e.data, GAP)
    ensures Split("event: " + e.kind + "\ndata: " + e.data, LF) == ["event: " + e.kind, "data: " + e.data]
    ensures Trim("event: " + e.kind + "\ndata: " + e.data) != ""
  {
    var block := "event: " + e.kind + "\ndata: " + e.data;
    var k := |"event: " + e.kind|;
    assert block[k] == '\n' && block[k + 1] == 'd';
    assert forall i :: 0 <= i < |block| && i != k ==> block[i] != '\n';
    NoGapInside(block);
    var lines := ["event: " + e.kind, "data: " + e.data];
    SplitJoin(lines, '\n');
    assert lines[1..] == [lines[1]];
    assert Join(lines, LF) == block;
    TrimNotBlank(block);
  }

  /** No two line breaks in a row, counting the ones that follow the block. */
  lemma NoGapInside(block: string)
    requires forall i :: 0 <= i < |block| ==> block[i] != '\n' || (block + GAP)[i + 1] != '\n'
    ensures Clean(block, GAP)
  {
    forall i | 0 <= i < |block|
      ensures !(GAP <= (block + GAP)[i..])
    {
      assert (block + GAP)[i..][0] == block[i] && (block + GAP)[i..][1] == (block + GAP)[i + 1];
    }
  }

  lemma TrimNotBlank(s: string)
    requires s != "" && !IsSpace(s[0])
    ensures Trim(s) != ""
  {
    TrimEndKeepsStart(s);
  }

  lemma {:induction false} TrimEndKeepsStart(s: string)
    requires s != "" && !IsSpace(s[0])
    ensures TrimEnd(s) != ""
    decreases |s|
  {
    if IsSpace(s[|s| - 1]) {
      TrimEndKeepsStart(s[..|s| - 1]);
    }
  }

  lemma ReadPrinted(e: Event)
    requires Printable(e)
    ensures ReadLines(Event("message", ""), ["event: " + e.kind, "data: " + e.data]) == e
  {
    var (a, b) := ("event: " + e.kind, "data: " + e.data);
    assert a[7..] == e.kind && b[6..] == e.data;
    assert "event: " <= a && "data: " <= b;
    TrimKeeps(e.kind);
    assert !("event: " <= b) by { assert b[0] == 'd'; }
    assert ReadLine(Event("message", ""), a) == Event(e.kind, "");
    assert ReadLine(Event(e.kind, ""), b) == e;
    assert [a, b][1..] == [b] && [b][1..] == [];
    assert ReadLines(Event(e.kind, ""), [b]) == ReadLines(e, []);
  }

  lemma {:induction false} PrintThenParse(events: seq<Event>)
    requires forall i :: 0 <= i < |events| ==> Printable(events[i])
    ensures StreamEvents(PrintAll(events)) == events
    decreases |events|
  {
    if events == [] {
      assert Init([""]) == [];
    } else {
      PrintThenParse(events[1..]);
      FirstPrinted(events[0], PrintAll(events[1..]));
      assert [events[0]] + events[1..] == events;
    }
  }

  lemma FirstPrinted(e: Event, rest: string)
    requires Printable(e)
    ensures StreamEvents(Print(e) + rest) == [e] + StreamEvents(rest)
  {
    var block := "event: " + e.kind + "\ndata: " + e.data;
    PrintedBlock(e);
    ReadPrinted(e);
    SplitPiece(block, rest, GAP);
    assert Print(e) + rest == block + GAP + rest;
    assert Init([block] + Split(rest, GAP)) == [block] + Init(Split(rest, GAP));
    assert ([block] + Init(Split(rest, GAP)))[1..] == Init(Split(rest, GAP));
  }

  lemma {:induction false} ReadLinesPrintable(e: Event, lines: seq<string>)
    requires Printable(e) && forall i :: 0 <= i < |lines| ==> '\n' !in lines[i]
    ensures Printable(ReadLines(e, lines))
    decreases |lines|
  {
    if lines != [] {
      if "event: " <= lines[0] {
        TrimTrims(lines[0][7..]);
      }
      ReadLinesPrintable(ReadLine(e, lines[0]), lines[1..]);
    }
  }

  lemma {:induction false} ReadBlocksPrintable(blocks: seq<string>, i: nat)
    requires i < |ReadBlocks(blocks)|
    ensures Printable(ReadBlocks(blocks)[i])
    decreases |blocks|
  {
    if Trim(blocks[0]) == "" {
      ReadBlocksPrintable(blocks[1..], i);
    } else if i > 0 {
      ReadBlocksPrintable(blocks[1..], i - 1);
    } else {
      ReadBlockPrintable(blocks[0]);
    }
  }

  lemma ReadBlockPrintable(block: string)
    ensures Printable(ReadBlock(block))
  {
    SplitFree(block, '\n');
    ReadLinesPrintable(Event("message", ""), Split(block, LF));
  }

  /** Printed events come back, through any pieces, exactly if none has a line break in its
      type or data or white space around its type. */
  lemma {:induction false} RoundTrip(events: seq<Event>)
    ensures StreamEvents(PrintAll(events)) == events <==> forall i :: 0 <= i < |events| ==> Printable(events[i])
  {
    if forall i :: 0 <= i < |events| ==> Printable(events[i]) {
      PrintThenParse(events);
    }
    if StreamEvents(PrintAll(events)) == events {
      forall i | 0 <= i < |events|
        ensures Printable(events[i])
      {
        ReadBlocksPrintable(Init(Split(PrintAll(events), GAP)), i);
      }
    }
  }
}
