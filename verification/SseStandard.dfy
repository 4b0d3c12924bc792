/** What the three readers of server-sent events have in common with the standard
    (WHATWG HTML, section 9.2.6) and with each other. */
module SseStandard {
  import opened Ordering
  import opened SseReaders
  import opened Text

  // -------------------------------------------------------------- the standard

  datatype Event = Event(kind: string, data: string)

  /** The position of the first colon, or the length of the line. */
  function Colon(line: string): (k: nat)
    ensures k <= |line| && (k < |line| ==> line[k] == ':')
    ensures forall i | 0 <= i < k :: line[i] != ':'
  {
    if line == [] || line[0] == ':' then 0 else 1 + Colon(line[1..])
  }

  function FieldName(line: string): string { line[..Colon(line)] }

  function DropSpace(s: string): string { if s != [] && s[0] == ' ' then s[1..] else s }

  /** The value after the colon without one leading space. */
  function FieldValue(line: string): string {
    if Colon(line) == |line| then "" else DropSpace(line[Colon(line) + 1..])
  }

  /** A final line feed does not count. */
  function DropFinalFeed(s: string): string {
    if s != [] && s[|s| - 1] == '\n' then s[..|s| - 1] else s
  }

  /** The events of a stream, from a state of the data and the event type buffer.
      Other fields do not matter to data. */
  function Events(lines: seq<string>, data: string, kind: string): seq<Event>
    decreases |lines|
  {
    if lines == [] then []
    else if lines[0] == "" then
      if data == "" then Events(lines[1..], "", "")
      else [Event(if kind == "" then "message" else kind, DropFinalFeed(data))] + Events(lines[1..], "", "")
    else if FieldName(lines[0]) == "event" then Events(lines[1..], data, FieldValue(lines[0]))
    else if FieldName(lines[0]) == "data" then Events(lines[1..], data + FieldValue(lines[0]) + "\n", kind)
    else Events(lines[1..], data, kind)
  }

  function Payloads(events: seq<Event>): (r: seq<string>)
    ensures |r| == |events|
  {
    seq(|events|, i requires 0 <= i < |events| => events[i].data)
  }

  /** The payloads that the standard delivers. */
  function StandardPayloads(lines: seq<string>): seq<string> { Payloads(Events(lines, "", "")) }

  // --------------------------------------------------------------------- blocks

  function BlockLength(lines: seq<string>): (k: nat)
    ensures k <= |lines| && "" !in lines[..k]
    ensures k < |lines| ==> lines[k] == ""
  {
    if lines == [] || lines[0] == "" then 0
    else
      var k := BlockLength(lines[1..]);
      assert lines[..k + 1] == [lines[0]] + lines[1..][..k];
      k + 1
  }

  /** The blocks that a blank line ends. */
  function Blocks(lines: seq<string>): (r: seq<seq<string>>)
    ensures forall b | b in r :: "" !in b
    decreases |lines|
  {
    var k := BlockLength(lines);
    if k == |lines| then [] else [lines[..k]] + Blocks(lines[k + 1..])
  }

  lemma BlocksStep(lines: seq<string>)
    requires BlockLength(lines) < |lines|
    ensures var k := BlockLength(lines);
      Blocks(lines) == [lines[..k]] + Blocks(lines[k + 1..]) && lines == lines[..k] + ([""] + lines[k + 1..])
  {
    CutAt(lines, BlockLength(lines));
  }

  lemma CutAt(lines: seq<string>, k: nat)
    requires k < |lines| && lines[k] == ""
    ensures lines == lines[..k] + ([""] + lines[k + 1..])
  {
  }

  /** The texts of the data lines, in order. */
  function DataTexts(block: seq<string>): seq<string> {
    if block == [] then []
    else if IsData(block[0]) then [DataText(block[0])] + DataTexts(block[1..])
    else DataTexts(block[1..])
  }

  /** The texts of the event lines, in order. */
  function EventTexts(block: seq<string>): seq<string> {
    if block == [] then []
    else if IsEvent(block[0]) then [EventText(block[0])] + EventTexts(block[1..])
    else EventTexts(block[1..])
  }

  /** The values of the data fields, as the standard reads them. */
  function DataValues(block: seq<string>): seq<string> {
    if block == [] then []
    else if FieldName(block[0]) == "data" then [FieldValue(block[0])] + DataValues(block[1..])
    else DataValues(block[1..])
  }

  /** The values of the event fields, as the standard reads them. */
  function EventValues(block: seq<string>): seq<string> {
    if block == [] then []
    else if FieldName(block[0]) == "event" then [FieldValue(block[0])] + EventValues(block[1..])
    else EventValues(block[1..])
  }

  function LastOr(s: seq<string>, d: string): string { if s == [] then d else s[|s| - 1] }

  /** The data buffer after a block. */
  function After(r: Reader, texts: seq<string>, d: string): string {
    if texts == [] then d else r.take(texts[|texts| - 1])
  }

  lemma {:induction false} SkipBlock(r: Reader, block: seq<string>, rest: seq<string>, d: string, e: string)
    requires "" !in block
    ensures Frames(r, block + rest, d, e)
         == Frames(r, rest, After(r, DataTexts(block), d), LastOr(EventTexts(block), e))
    decreases |block|
  {
    if block == [] {
      assert block + rest == rest;
    } else {
      var line := block[0];
      assert (block + rest)[1..] == block[1..] + rest;
      SkipBlock(r, block[1..], rest, NextData(r, line, d), NextEvent(line, e));
    }
  }

  /** Each value followed by a line feed. */
  function Terminated(values: seq<string>): string {
    if values == [] then "" else values[0] + "\n" + Terminated(values[1..])
  }

  lemma {:induction false} SkipStandard(block: seq<string>, rest: seq<string>, d: string, kind: string)
    requires "" !in block
    ensures Events(block + rest, d, kind)
         == Events(rest, d + Terminated(DataValues(block)), LastOr(EventValues(block), kind))
    decreases |block|
  {
    if block == [] {
      assert block + rest == rest && d + "" == d;
    } else {
      var line := block[0];
      assert (block + rest)[1..] == block[1..] + rest;
      if FieldName(line) == "event" {
        SkipStandard(block[1..], rest, d, FieldValue(line));
      } else if FieldName(line) == "data" {
        SkipStandard(block[1..], rest, d + FieldValue(line) + "\n", kind);
        var tail := Terminated(DataValues(block[1..]));
        assert DataValues(block)[1..] == DataValues(block[1..]);
        assert d + FieldValue(line) + "\n" + tail == d + (FieldValue(line) + "\n" + tail);
      } else {
        SkipStandard(block[1..], rest, d, kind);
      }
    }
  }

  lemma {:induction false} TerminatedJoins(values: seq<string>)
    requires values != []
    ensures Terminated(values) == Join(values, "\n") + "\n"
  {
    if |values| > 1 {
      TerminatedJoins(values[1..]);
    } else {
      assert Terminated(values) == values[0] + "\n" + Terminated([]);
    }
  }

  // ------------------------------------------------------------ block by block

  /** What a reader that hands over any data finds in a block. */
  function BlockFrames(r: Reader, block: seq<string>): seq<string> {
    var d := After(r, DataTexts(block), "");
    if d == "" then [] else [d]
  }

  /** What the standard finds in a block. */
  function StandardBlock(block: seq<string>): seq<string> {
    var values := DataValues(block);
    if values == [] then [] else [Join(values, "\n")]
  }

  function AgentBlock(block: seq<string>): seq<string> { BlockFrames(AGENT, block) }

  function KnowledgeBlock(block: seq<string>): seq<string> { BlockFrames(KNOWLEDGE, block) }

  lemma EachOfCons(f: seq<string> -> seq<string>, block: seq<string>, blocks: seq<seq<string>>)
    ensures Flatten(Each(f, [block] + blocks)) == f(block) + Flatten(Each(f, blocks))
  {
    assert Each(f, [block] + blocks) == [f(block)] + Each(f, blocks);
    assert ([f(block)] + Each(f, blocks))[1..] == Each(f, blocks);
  }

  lemma {:induction false} TailHasNoFrames(r: Reader, lines: seq<string>, d: string, e: string)
    requires "" !in lines
    ensures Frames(r, lines, d, e) == []
  {
    SkipBlock(r, lines, [], d, e);
    assert lines + [] == lines;
  }

  lemma FramesFirstBlock(r: Reader, block: seq<string>, rest: seq<string>, e: string) returns (e': string)
    requires r.ready == HasData && "" !in block
    ensures Frames(r, block + ([""] + rest), "", e) == BlockFrames(r, block) + Frames(r, rest, "", e')
  {
    var d := After(r, DataTexts(block), "");
    SkipBlock(r, block, [""] + rest, "", e);
    assert ([""] + rest)[0] == "" && ([""] + rest)[1..] == rest;
    e' := if d == "" then LastOr(EventTexts(block), e) else "";
    assert [] + Frames(r, rest, "", e') == Frames(r, rest, "", e');
  }

  /** A reader that hands over any data works block by block. */
  lemma {:induction false} FramesByBlocks(r: Reader, f: seq<string> -> seq<string>, lines: seq<string>, e: string)
    requires r.ready == HasData && forall b :: f(b) == BlockFrames(r, b)
    ensures Frames(r, lines, "", e) == Flatten(Each(f, Blocks(lines)))
    decreases |lines|
  {
    var k := BlockLength(lines);
    if k == |lines| {
      assert lines[..k] == lines;
      TailHasNoFrames(r, lines, "", e);
    } else {
      var block, rest := lines[..k], lines[k + 1..];
      BlocksStep(lines);
      var e' := FramesFirstBlock(r, block, rest, e);
      FramesByBlocks(r, f, rest, e');
      EachOfCons(f, block, Blocks(rest));
      assert f(block) == BlockFrames(r, block);
    }
  }

  lemma {:induction false} EventsOfTail(lines: seq<string>, d: string, kind: string)
    requires "" !in lines
    ensures Events(lines, d, kind) == []
  {
    SkipStandard(lines, [], d, kind);
    assert lines + [] == lines;
  }

  lemma EventsAtBlank(rest: seq<string>, values: seq<string>, kind: string)
    ensures Payloads(Events([""] + rest, Terminated(values), kind)) ==
      (if values == [] then [] else [Join(values, "\n")]) + StandardPayloads(rest)
  {
    var data := Terminated(values);
    var lines := [""] + rest;
    assert lines[0] == "" && lines[1..] == rest;
    if values != [] {
      TerminatedJoins(values);
      assert DropFinalFeed(data) == Join(values, "\n");
      var first := Event(if kind == "" then "message" else kind, DropFinalFeed(data));
      assert Payloads([first] + Events(rest, "", "")) == [first.data] + Payloads(Events(rest, "", ""));
    } else {
      assert [] + StandardPayloads(rest) == StandardPayloads(rest);
    }
  }

  lemma StandardFirstBlock(block: seq<string>, rest: seq<string>)
    requires "" !in block
    ensures StandardPayloads(block + ([""] + rest)) == StandardBlock(block) + StandardPayloads(rest)
  {
    SkipStandard(block, [""] + rest, "", "");
    assert "" + Terminated(DataValues(block)) == Terminated(DataValues(block));
    EventsAtBlank(rest, DataValues(block), LastOr(EventValues(block), ""));
  }

  /** The standard works block by block as far as payloads go. */
  lemma {:induction false} StandardByBlocks(lines: seq<string>)
    ensures StandardPayloads(lines) == Flatten(Each(StandardBlock, Blocks(lines)))
    decreases |lines|
  {
    var k := BlockLength(lines);
    if k == |lines| {
      assert lines[..k] == lines;
      EventsOfTail(lines, "", "");
    } else {
      var block, rest := lines[..k], lines[k + 1..];
      BlocksStep(lines);
      StandardFirstBlock(block, rest);
      StandardByBlocks(rest);
      EachOfCons(StandardBlock, block, Blocks(rest));
    }
  }

  // -------------------------------------------------------------- what is shown

  /** A payload up to white space; a blank payload shows nothing. */
  function Shown(payload: string): seq<string> {
    if TrimSpace(payload) == "" then [] else [TrimSpace(payload)]
  }

  function ShownOf(payloads: seq<string>): seq<string> {
    if payloads == [] then [] else Shown(payloads[0]) + ShownOf(payloads[1..])
  }

  lemma {:induction false} ShownAppend(a: seq<string>, b: seq<string>)
    ensures ShownOf(a + b) == ShownOf(a) + ShownOf(b)
  {
    if a == [] {
      assert a + b == b;
    } else {
      ShownAppend(a[1..], b);
      assert (a + b)[1..] == a[1..] + b && (a + b)[0] == a[0];
      Associate(Shown(a[0]), ShownOf(a[1..]), ShownOf(b));
    }
  }

  function ShownBlock(block: seq<string>): seq<string> { ShownOf(StandardBlock(block)) }

  lemma {:induction false} ShownByBlocks(f: seq<string> -> seq<string>, g: seq<string> -> seq<string>,
                                         blocks: seq<seq<string>>)
    requires forall b :: g(b) == ShownOf(f(b))
    ensures ShownOf(Flatten(Each(f, blocks))) == Flatten(Each(g, blocks))
  {
    if blocks != [] {
      ShownByBlocks(f, g, blocks[1..]);
      assert blocks == [blocks[0]] + blocks[1..];
      EachOfCons(f, blocks[0], blocks[1..]);
      EachOfCons(g, blocks[0], blocks[1..]);
      ShownAppend(f(blocks[0]), Flatten(Each(f, blocks[1..])));
    }
  }

  /** If no part is longer on the left, equal totals mean equal parts. */
  lemma {:induction false} EqualParts(a: seq<seq<string>>, b: seq<seq<string>>)
    requires |a| == |b| && forall i | 0 <= i < |a| :: |a[i]| <= |b[i]|
    ensures |Flatten(a)| <= |Flatten(b)|
    ensures Flatten(a) == Flatten(b) <==> a == b
  {
    if a != [] {
      EqualParts(a[1..], b[1..]);
      var x, y := Flatten(a[1..]), Flatten(b[1..]);
      if Flatten(a) == Flatten(b) {
        assert a[0] + x == b[0] + y && |a[0]| == |b[0]|;
        assert a[0] == (a[0] + x)[..|a[0]|] && b[0] == (b[0] + y)[..|b[0]|];
        assert x == (a[0] + x)[|a[0]|..] && y == (b[0] + y)[|b[0]|..];
        assert a == [a[0]] + a[1..] && b == [b[0]] + b[1..];
      }
    }
  }

  // ------------------------------------------------------------------- weights

  /** How many characters are not white space. */
  function Weight(s: string): nat {
    if s == [] then 0 else (if IsGoSpace(s[0]) then 0 else 1) + Weight(s[1..])
  }

  lemma {:induction false} WeightConcat(a: string, b: string)
    ensures Weight(a + b) == Weight(a) + Weight(b)
  {
    if a == [] {
      assert a + b == b;
    } else {
      WeightConcat(a[1..], b);
      assert (a + b)[1..] == a[1..] + b;
    }
  }

  lemma {:induction false} NoWeight(s: string)
    ensures Weight(s) == 0 <==> AllOf(s, IsGoSpace)
  {
    if s != [] {
      NoWeight(s[1..]);
      assert forall i | 0 < i < |s| :: s[i] == s[1..][i - 1];
      assert forall i | 0 <= i < |s[1..]| :: s[1..][i] == s[i + 1];
    }
  }

  lemma WeightOfTrim(s: string)
    ensures Weight(TrimSpace(s)) == Weight(s)
  {
    var before, after := TrimParts(s, IsGoSpace);
    WeightConcat(before + TrimSpace(s), after);
    WeightConcat(before, TrimSpace(s));
    NoWeight(before);
    NoWeight(after);
  }

  function Weights(parts: seq<string>): nat {
    if parts == [] then 0 else Weight(parts[0]) + Weights(parts[1..])
  }

  lemma {:induction false} WeightOfJoin(parts: seq<string>)
    ensures Weight(Join(parts, "\n")) == Weights(parts)
  {
    if |parts| == 1 {
      assert Weights(parts[1..]) == 0;
    } else if |parts| > 1 {
      WeightOfJoin(parts[1..]);
      var rest := Join(parts[1..], "\n");
      WeightConcat(parts[0] + "\n", rest);
      WeightConcat(parts[0], "\n");
      NoWeight("\n");
    }
  }

  lemma {:induction false} WeightOfValues(block: seq<string>)
    ensures Weights(DataValues(block)) == Weights(DataTexts(block))
    ensures DataValues(block) == [] ==> DataTexts(block) == []
  {
    if block != [] {
      WeightOfValues(block[1..]);
      FieldOfLine(block[0]);
    }
  }

  /** The data field of a line, against the prefix that the readers look for. */
  lemma FieldOfLine(line: string)
    ensures IsData(line) ==> FieldName(line) == "data" && Weight(FieldValue(line)) == Weight(DataText(line))
    ensures !IsData(line) && FieldName(line) == "data" ==> FieldValue(line) == ""
  {
    var k := Colon(line);
    if IsData(line) {
      assert line[0] == 'd' && line[1] == 'a' && line[2] == 't' && line[3] == 'a' && line[4] == ':' by {
        assert forall i | 0 <= i < 5 :: line[i] == "data:"[i];
      }
      assert k == 4;
      assert line[..4] == "data";
      var text := line[5..];
      assert text != [] && text[0] == ' ' ==> IsGoSpace(text[0]) && Weight(text) == Weight(text[1..]);
    } else if FieldName(line) == "data" {
      assert k == 4 && line[..4] == "data";
    }
  }

  // ---------------------------------------------------- the agent and the standard

  /** Every data line but the last is blank; true of blocks with at most one. */
  ghost predicate OnlyLastSpeaks(block: seq<string>) {
    var texts := DataTexts(block);
    forall i | 0 <= i < |texts| - 1 :: AllOf(texts[i], IsGoSpace)
  }

  lemma {:induction false} WeightsZero(parts: seq<string>)
    ensures Weights(parts) == 0 <==> forall i | 0 <= i < |parts| :: AllOf(parts[i], IsGoSpace)
  {
    if parts != [] {
      WeightsZero(parts[1..]);
      NoWeight(parts[0]);
      assert forall i | 0 < i < |parts| :: parts[i] == parts[1..][i - 1];
      assert forall i | 0 <= i < |parts[1..]| :: parts[1..][i] == parts[i + 1];
    }
  }

  lemma {:induction false} WeightsOfLast(parts: seq<string>)
    requires parts != []
    ensures Weights(parts) == Weights(parts[..|parts| - 1]) + Weight(parts[|parts| - 1])
  {
    if |parts| == 1 {
      assert Weights(parts[1..]) == 0 && parts[..0] == [];
    } else {
      WeightsOfLast(parts[1..]);
      assert parts[..|parts| - 1][1..] == parts[1..][..|parts| - 2];
    }
  }

  lemma SpeaksByWeight(block: seq<string>)
    requires DataTexts(block) != []
    ensures var texts := DataTexts(block);
      OnlyLastSpeaks(block) <==> Weights(texts) == Weight(texts[|texts| - 1])
  {
    var texts := DataTexts(block);
    WeightsOfLast(texts);
    WeightsZero(texts[..|texts| - 1]);
    assert forall i | 0 <= i < |texts| - 1 :: texts[..|texts| - 1][i] == texts[i];
  }

  lemma BlankJoin(block: seq<string>)
    requires DataTexts(block) == []
    ensures AllOf(Join(DataValues(block), "\n"), IsGoSpace)
  {
    WeightOfValues(block);
    WeightOfJoin(DataValues(block));
    NoWeight(Join(DataValues(block), "\n"));
  }

  lemma JoinCons(value: string, values: seq<string>)
    ensures Join([value] + values, "\n") == if values == [] then value else value + "\n" + Join(values, "\n")
  {
    assert ([value] + values)[1..] == values;
  }

  lemma DropSpaceTrims(s: string)
    ensures TrimSpace(DropSpace(s)) == TrimSpace(s)
  {
    if s != [] && s[0] == ' ' {
      assert s == " " + s[1..] + "";
      TrimAround(" ", s[1..], "", IsGoSpace);
    }
  }

  lemma ValueTrims(line: string)
    requires IsData(line)
    ensures FieldName(line) == "data" && TrimSpace(FieldValue(line)) == TrimSpace(DataText(line))
  {
    FieldOfLine(line);
    assert Colon(line) == 4 by {
      assert line[4] == "data:"[4] && |FieldName(line)| == 4;
    }
    DropSpaceTrims(line[5..]);
  }

  /** If only the last data line speaks, it is all one sees of the data. */
  lemma {:induction false} TrimmedJoin(block: seq<string>)
    requires DataTexts(block) != [] && OnlyLastSpeaks(block)
    ensures var texts := DataTexts(block);
      TrimSpace(Join(DataValues(block), "\n")) == TrimSpace(texts[|texts| - 1])
  {
    var line, rest := block[0], block[1..];
    assert block == [line] + rest;
    FirstField(line, rest);
    if !IsData(line) {
      OtherLine(line, rest);
      TrimmedJoin(rest);
    } else if DataTexts(rest) == [] {
      LastDataLine(line, rest);
    } else {
      EarlierDataLine(line, rest);
      TrimmedJoin(rest);
    }
  }

  lemma FirstField(line: string, rest: seq<string>)
    ensures DataTexts([line] + rest) == if IsData(line) then [DataText(line)] + DataTexts(rest) else DataTexts(rest)
    ensures IsData(line) ==> DataValues([line] + rest) == [FieldValue(line)] + DataValues(rest)
  {
    assert ([line] + rest)[1..] == rest;
    if IsData(line) {
      ValueTrims(line);
    }
  }

  lemma OtherLine(line: string, rest: seq<string>)
    requires !IsData(line) && DataTexts(rest) != []
    ensures DataTexts([line] + rest) == DataTexts(rest)
    ensures TrimSpace(Join(DataValues([line] + rest), "\n")) == TrimSpace(Join(DataValues(rest), "\n"))
  {
    var values := DataValues(rest);
    assert ([line] + rest)[1..] == rest;
    FieldOfLine(line);
    WeightOfValues(rest);
    if FieldName(line) == "data" {
      JoinCons("", values);
      TrimAround("\n", Join(values, "\n"), "", IsGoSpace);
      assert "" + "\n" + Join(values, "\n") == "\n" + Join(values, "\n") + "";
    }
  }

  lemma LastDataLine(line: string, rest: seq<string>)
    requires IsData(line) && DataTexts(rest) == []
    ensures TrimSpace(Join([FieldValue(line)] + DataValues(rest), "\n")) == TrimSpace(DataText(line))
  {
    var values := DataValues(rest);
    ValueTrims(line);
    JoinCons(FieldValue(line), values);
    BlankJoin(rest);
    if values != [] {
      TrimBefore(FieldValue(line), Join(values, "\n"));
    }
  }

  /** Blank text after a line feed does not show. */
  lemma TrimBefore(value: string, blank: string)
    requires AllOf(blank, IsGoSpace)
    ensures TrimSpace(value + "\n" + blank) == TrimSpace(value)
  {
    var after := "\n" + blank;
    TrimAround("", value, after, IsGoSpace);
    assert "" + value + after == value + "\n" + blank;
  }

  lemma SpeaksLater(line: string, rest: seq<string>)
    requires IsData(line) && DataTexts(rest) != [] && OnlyLastSpeaks([line] + rest)
    ensures OnlyLastSpeaks(rest) && AllOf(DataText(line), IsGoSpace)
  {
    var block := [line] + rest;
    var texts := DataTexts(rest);
    assert block[1..] == rest && DataTexts(block) == [DataText(line)] + texts;
    assert DataTexts(block)[0] == DataText(line);
    assert forall i | 0 <= i < |texts| - 1 :: texts[i] == DataTexts(block)[i + 1];
  }

  lemma EarlierDataLine(line: string, rest: seq<string>)
    requires IsData(line) && DataTexts(rest) != [] && OnlyLastSpeaks([line] + rest)
    ensures OnlyLastSpeaks(rest)
    ensures TrimSpace(Join([FieldValue(line)] + DataValues(rest), "\n")) == TrimSpace(Join(DataValues(rest), "\n"))
  {
    var values := DataValues(rest);
    SpeaksLater(line, rest);
    WeightOfValues(rest);
    FieldOfLine(line);
    NoWeight(DataText(line));
    NoWeight(FieldValue(line));
    JoinCons(FieldValue(line), values);
    var before := FieldValue(line) + "\n";
    TrimAround(before, Join(values, "\n"), "", IsGoSpace);
    assert before + Join(values, "\n") + "" == FieldValue(line) + "\n" + Join(values, "\n");
  }

  lemma ShownSame(a: string, b: string)
    ensures Shown(a) == Shown(b) <==> TrimSpace(a) == TrimSpace(b)
  {
    if Shown(a) == Shown(b) && TrimSpace(a) != "" {
      assert Shown(a)[0] == TrimSpace(a) && Shown(b)[0] == TrimSpace(b);
    }
  }

  lemma ShownOfOne(payload: string)
    ensures ShownOf([payload]) == Shown(payload)
  {
    assert [payload][1..] == [] && Shown(payload) + [] == Shown(payload);
  }

  /** In one block the agent shows what the standard shows exactly when only the
      last data line speaks; it never shows more. */
  lemma BlockMatches(block: seq<string>)
    ensures AgentBlock(block) == ShownBlock(block) <==> OnlyLastSpeaks(block)
    ensures |AgentBlock(block)| <= |ShownBlock(block)|
  {
    var texts, values := DataTexts(block), DataValues(block);
    var joined := Join(values, "\n");
    WeightOfValues(block);
    WeightOfJoin(values);
    ShownOfOne(joined);
    if texts == [] {
      BlankJoin(block);
      TrimEmptyIff(joined, IsGoSpace);
    } else {
      var last := texts[|texts| - 1];
      assert AgentBlock(block) == Shown(last);
      ShownSame(last, joined);
      SpeaksByWeight(block);
      WeightOfTrim(last);
      WeightOfTrim(joined);
      WeightsOfLast(texts);
      NoWeight(TrimSpace(joined));
      TrimEmptyIff(joined, IsGoSpace);
      TrimEmptyIff(last, IsGoSpace);
      NoWeight(joined);
      NoWeight(last);
      if OnlyLastSpeaks(block) {
        TrimmedJoin(block);
      }
    }
  }

  /** For every stream: the agent delivers what the standard delivers, up to white
      space and blank payloads, exactly when in each complete block every data line
      but the last is blank. */
  lemma AgentMatchesStandard(lines: seq<string>)
    ensures FramesOf(AGENT, lines) == ShownOf(StandardPayloads(lines)) <==>
      forall b | b in Blocks(lines) :: OnlyLastSpeaks(b)
  {
    var blocks := Blocks(lines);
    FramesByBlocks(AGENT, AgentBlock, lines, "");
    StandardByBlocks(lines);
    ShownByBlocks(StandardBlock, ShownBlock, blocks);
    var a, s := Each(AgentBlock, blocks), Each(ShownBlock, blocks);
    forall i | 0 <= i < |blocks| ensures |a[i]| <= |s[i]| && (a[i] == s[i] <==> OnlyLastSpeaks(blocks[i])) {
      BlockMatches(blocks[i]);
    }
    EqualParts(a, s);
    assert a == s <==> forall i | 0 <= i < |blocks| :: OnlyLastSpeaks(blocks[i]);
  }

  // ------------------------------------------------------ the readers compared

  function Trimmed(frames: seq<string>): (r: seq<string>)
    ensures |r| == |frames|
  {
    seq(|frames|, i requires 0 <= i < |frames| => TrimSpace(frames[i]))
  }

  function TrimmedKnowledgeBlock(block: seq<string>): seq<string> { Trimmed(KnowledgeBlock(block)) }

  lemma {:induction false} TrimmedByBlocks(blocks: seq<seq<string>>)
    ensures Trimmed(Flatten(Each(KnowledgeBlock, blocks))) == Flatten(Each(TrimmedKnowledgeBlock, blocks))
  {
    if blocks != [] {
      TrimmedByBlocks(blocks[1..]);
      assert blocks == [blocks[0]] + blocks[1..];
      EachOfCons(KnowledgeBlock, blocks[0], blocks[1..]);
      EachOfCons(TrimmedKnowledgeBlock, blocks[0], blocks[1..]);
      var a, b := KnowledgeBlock(blocks[0]), Flatten(Each(KnowledgeBlock, blocks[1..]));
      assert Trimmed(a + b) == Trimmed(a) + Trimmed(b);
    }
  }

  /** The last data line, if any, is empty or says something. */
  ghost predicate NoBlankData(block: seq<string>) {
    var last := LastOr(DataTexts(block), "");
    last == "" || !AllOf(last, IsGoSpace)
  }

  lemma BlockTrims(block: seq<string>)
    ensures TrimmedKnowledgeBlock(block) == AgentBlock(block) <==> NoBlankData(block)
    ensures |AgentBlock(block)| <= |TrimmedKnowledgeBlock(block)|
  {
    var last := LastOr(DataTexts(block), "");
    TrimEmptyIff(last, IsGoSpace);
    assert KnowledgeBlock(block) == if last == "" then [] else [last];
    assert AgentBlock(block) == if TrimSpace(last) == "" then [] else [TrimSpace(last)];
  }

  /** For every stream: up to trimming, the knowledge reader delivers what the
      agent delivers exactly when no complete block ends in a data line of white
      space only. */
  lemma KnowledgeMatchesAgent(lines: seq<string>)
    ensures Trimmed(FramesOf(KNOWLEDGE, lines)) == FramesOf(AGENT, lines) <==>
      forall b | b in Blocks(lines) :: NoBlankData(b)
  {
    var blocks := Blocks(lines);
    FramesByBlocks(AGENT, AgentBlock, lines, "");
    FramesByBlocks(KNOWLEDGE, KnowledgeBlock, lines, "");
    TrimmedByBlocks(blocks);
    var a, k := Each(AgentBlock, blocks), Each(TrimmedKnowledgeBlock, blocks);
    forall i | 0 <= i < |blocks| ensures |a[i]| <= |k[i]| && (a[i] == k[i] <==> NoBlankData(blocks[i])) {
      BlockTrims(blocks[i]);
    }
    EqualParts(a, k);
    assert a == k <==> forall i | 0 <= i < |blocks| :: NoBlankData(blocks[i]);
  }

  // ------------------------------------------- the continuing reader, exactly

  /** What the continuing reader finds in the blocks, from a state of its buffers. */
  function ContinuedBlocks(blocks: seq<seq<string>>, data: string, event: string): seq<string> {
    if blocks == [] then []
    else
      var d, e := LastOr(DataTexts(blocks[0]), data), LastOr(EventTexts(blocks[0]), event);
      if IsMessage(d, e) then [d] + ContinuedBlocks(blocks[1..], "", "") else ContinuedBlocks(blocks[1..], d, e)
  }

  lemma ContinuedFirstBlock(block: seq<string>, rest: seq<string>, data: string, event: string)
    requires "" !in block
    ensures var d, e := LastOr(DataTexts(block), data), LastOr(EventTexts(block), event);
      Frames(CONTINUED, block + ([""] + rest), data, event) ==
        if IsMessage(d, e) then [d] + Frames(CONTINUED, rest, "", "") else Frames(CONTINUED, rest, d, e)
  {
    SkipBlock(CONTINUED, block, [""] + rest, data, event);
    assert ([""] + rest)[0] == "" && ([""] + rest)[1..] == rest;
  }

  lemma {:induction false} ContinuedByBlocks(lines: seq<string>, data: string, event: string)
    ensures Frames(CONTINUED, lines, data, event) == ContinuedBlocks(Blocks(lines), data, event)
    decreases |lines|
  {
    var k := BlockLength(lines);
    if k == |lines| {
      assert lines[..k] == lines;
      TailHasNoFrames(CONTINUED, lines, data, event);
    } else {
      var block, rest := lines[..k], lines[k + 1..];
      BlocksStep(lines);
      var d, e := LastOr(DataTexts(block), data), LastOr(EventTexts(block), event);
      ContinuedFirstBlock(block, rest, data, event);
      ContinuedCons(block, Blocks(rest), data, event);
      if IsMessage(d, e) {
        ContinuedByBlocks(rest, "", "");
      } else {
        ContinuedByBlocks(rest, d, e);
      }
    }
  }

  lemma ContinuedCons(block: seq<string>, blocks: seq<seq<string>>, data: string, event: string)
    ensures var d, e := LastOr(DataTexts(block), data), LastOr(EventTexts(block), event);
      ContinuedBlocks([block] + blocks, data, event) ==
        if IsMessage(d, e) then [d] + ContinuedBlocks(blocks, "", "") else ContinuedBlocks(blocks, d, e)
  {
    assert ([block] + blocks)[1..] == blocks;
  }

  /** Every data that a block ends with meets, at the end of its block or of a
      later one, the event type "message" before another data line comes. The type
      is that of the last event line since the last delivery. */
  predicate AllReachMessage(blocks: seq<seq<string>>, pending: bool, event: string) {
    if blocks == [] then !pending
    else
      var texts, e := DataTexts(blocks[0]), LastOr(EventTexts(blocks[0]), event);
      var waiting := pending || LastOr(texts, "") != "";
      if pending && texts != [] then false
      else if waiting && e == "message" then AllReachMessage(blocks[1..], false, "")
      else AllReachMessage(blocks[1..], waiting, e)
  }

  /** The payload in the buffer, if any. */
  function Held(data: string): seq<string> { if data == "" then [] else [data] }

  function KnowledgeFrames(blocks: seq<seq<string>>): seq<string> { Flatten(Each(KnowledgeBlock, blocks)) }

  lemma KnowledgeFirst(blocks: seq<seq<string>>)
    requires blocks != []
    ensures KnowledgeFrames(blocks) == Held(LastOr(DataTexts(blocks[0]), "")) + KnowledgeFrames(blocks[1..])
  {
    assert blocks == [blocks[0]] + blocks[1..];
    EachOfCons(KnowledgeBlock, blocks[0], blocks[1..]);
  }

  /** The continuing reader delivers some of the payloads in the buffer and the
      blocks, in order, and all of them exactly when all reach a message. */
  lemma {:induction false} ContinuedAgainst(blocks: seq<seq<string>>, data: string, event: string)
    ensures var all := Held(data) + KnowledgeFrames(blocks);
      && IsSublist(ContinuedBlocks(blocks, data, event), all)
      && |ContinuedBlocks(blocks, data, event)| <= |all|
      && (ContinuedBlocks(blocks, data, event) == all <==> AllReachMessage(blocks, data != "", event))
    decreases |blocks|, 1
  {
    if blocks != [] {
      var texts := DataTexts(blocks[0]);
      KnowledgeFirst(blocks);
      if texts == [] {
        assert Held("") + KnowledgeFrames(blocks[1..]) == KnowledgeFrames(blocks[1..]);
        ContinuedStep(blocks, data, event);
      } else {
        ContinuedStep(blocks, LastOr(texts, ""), event);
        assert ContinuedBlocks(blocks, data, event) == ContinuedBlocks(blocks, LastOr(texts, ""), event);
        var later := Held(LastOr(texts, "")) + KnowledgeFrames(blocks[1..]);
        if data == "" {
          assert Held(data) + later == later;
        } else {
          assert (Held(data) + later)[1..] == later;
        }
      }
    }
  }

  /** One block, when the data that counts at its end is d. */
  lemma {:induction false} ContinuedStep(blocks: seq<seq<string>>, d: string, event: string)
    requires blocks != [] && LastOr(DataTexts(blocks[0]), d) == d
    ensures var found := ContinuedBlocks(blocks, d, event);
      var all := Held(d) + KnowledgeFrames(blocks[1..]);
      var e := LastOr(EventTexts(blocks[0]), event);
      && IsSublist(found, all) && |found| <= |all|
      && (found == all <==>
        if IsMessage(d, e) then AllReachMessage(blocks[1..], false, "") else AllReachMessage(blocks[1..], d != "", e))
    decreases |blocks|, 0
  {
    var e := LastOr(EventTexts(blocks[0]), event);
    if IsMessage(d, e) {
      var rest := ContinuedBlocks(blocks[1..], "", "");
      ContinuedAgainst(blocks[1..], "", "");
      assert Held("") + KnowledgeFrames(blocks[1..]) == KnowledgeFrames(blocks[1..]);
      assert ([d] + rest)[1..] == rest;
      assert ([d] + KnowledgeFrames(blocks[1..]))[1..] == KnowledgeFrames(blocks[1..]);
    } else {
      ContinuedAgainst(blocks[1..], d, e);
    }
  }

  /** For every stream: the continuing reader delivers some of the payloads that
      the knowledge reader delivers, in order, and all of them exactly when every
      data reaches a message event before another data line comes. */
  lemma ContinuedMatchesKnowledge(lines: seq<string>)
    ensures IsSublist(FramesOf(CONTINUED, lines), FramesOf(KNOWLEDGE, lines))
    ensures FramesOf(CONTINUED, lines) == FramesOf(KNOWLEDGE, lines) <==> AllReachMessage(Blocks(lines), false, "")
  {
    ContinuedByBlocks(lines, "", "");
    FramesByBlocks(KNOWLEDGE, KnowledgeBlock, lines, "");
    ContinuedAgainst(Blocks(lines), "", "");
    assert Held("") + KnowledgeFrames(Blocks(lines)) == KnowledgeFrames(Blocks(lines));
  }

  /** A block with data has a message event line, after any other event line. */
  ghost predicate IsNamed(block: seq<string>) {
    LastOr(DataTexts(block), "") == "" || LastOr(EventTexts(block), "") == "message"
  }

  lemma {:induction false} NamedReachMessage(blocks: seq<seq<string>>, event: string)
    requires forall i | 0 <= i < |blocks| :: IsNamed(blocks[i])
    ensures AllReachMessage(blocks, false, event)
  {
    if blocks != [] {
      assert IsNamed(blocks[0]);
      NamedReachMessage(blocks[1..], "");
      NamedReachMessage(blocks[1..], LastOr(EventTexts(blocks[0]), event));
    }
  }

  /** One message event line and one data line that is not blank. */
  ghost predicate IsPlainMessage(block: seq<string>) {
    && EventTexts(block) == ["message"]
    && |DataTexts(block)| == 1 && !AllOf(DataTexts(block)[0], IsGoSpace)
  }

  /** On streams of plain messages all three readers and the standard deliver the
      same payloads, up to white space around them. */
  lemma ReadersAgree(lines: seq<string>)
    requires forall b | b in Blocks(lines) :: IsPlainMessage(b)
    ensures FramesOf(AGENT, lines) == ShownOf(StandardPayloads(lines))
    ensures FramesOf(AGENT, lines) == Trimmed(FramesOf(KNOWLEDGE, lines)) == Trimmed(FramesOf(CONTINUED, lines))
  {
    forall b | b in Blocks(lines) ensures OnlyLastSpeaks(b) && NoBlankData(b) && IsNamed(b) {
      assert IsPlainMessage(b);
    }
    AgentMatchesStandard(lines);
    KnowledgeMatchesAgent(lines);
    ContinuedMatchesKnowledge(lines);
    forall i | 0 <= i < |Blocks(lines)| ensures IsNamed(Blocks(lines)[i]) {
      assert Blocks(lines)[i] in Blocks(lines);
    }
    NamedReachMessage(Blocks(lines), "");
  }

  // ------------------------------------------------------------- stale buffers

  /** Two blocks: data of an event of the given type, and a message without data. */
  function StaleStream(kind: string, payload: string): seq<string> {
    ["event:" + kind, "data:" + payload, "", "event:message", ""]
  }

  lemma EventLine(kind: string)
    ensures var line := "event:" + kind;
      && IsEvent(line) && !IsData(line) && EventText(line) == kind
      && FieldName(line) == "event" && FieldValue(line) == DropSpace(kind)
  {
    var line := "event:" + kind;
    PrefixesDiffer(line);
    assert line[..6] == "event:" && line[6..] == kind;
    assert line[0] == 'e' && line[1] == 'v' && line[2] == 'e' && line[3] == 'n' && line[4] == 't' && line[5] == ':';
    assert Colon(line) == 5;
    assert line[..5] == "event";
  }

  lemma DataLine(payload: string)
    ensures var line := "data:" + payload;
      && IsData(line) && !IsEvent(line) && DataText(line) == payload
      && FieldName(line) == "data" && FieldValue(line) == DropSpace(payload)
  {
    var line := "data:" + payload;
    PrefixesDiffer(line);
    assert line[..5] == "data:" && line[5..] == payload;
    assert line[0] == 'd' && line[1] == 'a' && line[2] == 't' && line[3] == 'a' && line[4] == ':';
    assert Colon(line) == 4;
    assert line[..4] == "data";
  }

  /** Data of another event type stays in the buffer and goes out with the next
      message event. */
  lemma StaleDataDelivered(kind: string, payload: string)
    requires kind != "message" && payload != ""
    ensures FramesOf(CONTINUED, StaleStream(kind, payload)) == [payload]
  {
    var first, second := ["event:" + kind, "data:" + payload], ["event:message"];
    var rest := second + [""];
    assert StaleStream(kind, payload) == first + ([""] + rest);
    FirstTexts(kind, payload);
    SkipBlock(CONTINUED, first, [""] + rest, "", "");
    assert ([""] + rest)[0] == "" && ([""] + rest)[1..] == rest;
    SecondTexts();
    SkipBlock(CONTINUED, second, [""], payload, kind);
    assert [""][1..] == [];
    assert Frames(CONTINUED, [""], payload, "message") == [payload] + [];
  }

  lemma FirstTexts(kind: string, payload: string)
    ensures var block := ["event:" + kind, "data:" + payload];
      "" !in block && EventTexts(block) == [kind] && DataTexts(block) == [payload]
  {
    EventLine(kind);
    DataLine(payload);
    var block := ["event:" + kind, "data:" + payload];
    assert block[1..] == ["data:" + payload] && ["data:" + payload][1..] == [];
    assert EventTexts(["data:" + payload]) == [] && DataTexts(["data:" + payload]) == [payload];
  }

  lemma SecondTexts()
    ensures "" !in ["event:message"]
    ensures EventTexts(["event:message"]) == ["message"] && DataTexts(["event:message"]) == []
  {
    EventLine("message");
    assert "event:" + "message" == "event:message";
    assert ["event:message"][1..] == [];
  }

  /** The standard dispatches it once, under its own type, and no message. */
  lemma StandardKeepsTypes(kind: string, payload: string)
    requires DropSpace(kind) != ""
    ensures Events(StaleStream(kind, payload), "", "") == [Event(DropSpace(kind), DropSpace(payload))]
  {
    EventLine(kind);
    DataLine(payload);
    var lines := StaleStream(kind, payload);
    var l1, l2 := lines[1..], lines[2..];
    assert l1[1..] == l2 && l2[1..] == ["event:message", ""];
    var data := "" + DropSpace(payload) + "\n";
    assert DropFinalFeed(data) == DropSpace(payload);
    NoMessageData();
    assert Events(l2, data, DropSpace(kind)) == [Event(DropSpace(kind), DropSpace(payload))] + [];
    assert Events(l1, "", DropSpace(kind)) == Events(l2, data, DropSpace(kind));
  }

  lemma NoMessageData()
    ensures Events(["event:message", ""], "", "") == []
  {
    EventLine("message");
    assert "event:" + "message" == "event:message";
    assert ["event:message", ""][1..] == [""] && [""][1..] == [];
    assert Events([""], "", DropSpace("message")) == [];
  }

  /** Two blocks: data of an event of the given type, and a message with data. */
  function LosingStream(kind: string, first: string, second: string): seq<string> {
    ["event:" + kind, "data:" + first, "", "event:message", "data:" + second, ""]
  }

  /** On it the two readers differ: the continuing one loses the first data. */
  lemma DataLost(kind: string, first: string, second: string)
    requires kind != "message" && first != "" && second != ""
    ensures FramesOf(KNOWLEDGE, LosingStream(kind, first, second)) == [first, second]
    ensures FramesOf(CONTINUED, LosingStream(kind, first, second)) == [second]
  {
    var one, two := ["event:" + kind, "data:" + first], ["event:message", "data:" + second];
    var tail := two + ([""] + []);
    assert LosingStream(kind, first, second) == one + ([""] + tail);
    FirstTexts(kind, first);
    FirstTexts("message", second);
    assert "event:" + "message" == "event:message";
    ContinuedFirstBlock(one, tail, "", "");
    ContinuedFirstBlock(two, [], first, kind);
    var e1 := FramesFirstBlock(KNOWLEDGE, one, tail, "");
    var e2 := FramesFirstBlock(KNOWLEDGE, two, [], e1);
  }

  /** Without a line that is exactly "event:message" the continuing reader delivers
      nothing, although the standard also allows a space after the colon. */
  lemma {:induction false} SilentWithoutMessage(lines: seq<string>, data: string, event: string)
    requires event != "message" && "event:message" !in lines
    ensures Frames(CONTINUED, lines, data, event) == []
    decreases |lines|
  {
    if lines != [] {
      var line := lines[0];
      assert IsEvent(line) ==> line == "event:" + line[6..];
      assert "event:" + "message" == "event:message";
      SilentWithoutMessage(lines[1..], NextData(CONTINUED, line, data), NextEvent(line, event));
      SilentWithoutMessage(lines[1..], data, event);
    }
  }
}
