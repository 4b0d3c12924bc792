/** The continuing reader against the message events of the standard, and streams
    on which the readers and the standard part. */
module SseMessages {
  import opened Ordering
  import opened SseReaders
  import opened SseStandard
  import opened Text

  // ---------------------------------------------------------- message events

  /** The payloads of the events of type message. */
  function Messages(events: seq<Event>): seq<string> {
    if events == [] then []
    else
      var rest := Messages(events[1..]);
      if events[0].kind == "message" then [events[0].data] + rest else rest
  }

  predicate HasMessageType(block: seq<string>) {
    var kind := LastOr(EventValues(block), "");
    kind == "" || kind == "message"
  }

  /** The payload of the message of a block. */
  function MessageData(block: seq<string>): seq<string> {
    if DataValues(block) != [] && HasMessageType(block) then [Join(DataValues(block), "\n")] else []
  }

  /** What the standard shows of the message of a block. */
  function MessageBlock(block: seq<string>): seq<string> {
    if HasMessageType(block) then ShownBlock(block) else []
  }

  lemma MessagesAtBlank(rest: seq<string>, values: seq<string>, kind: string)
    ensures Messages(Events([""] + rest, Terminated(values), kind)) ==
      (if values != [] && (kind == "" || kind == "message") then [Join(values, "\n")] else [])
      + Messages(Events(rest, "", ""))
  {
    var data := Terminated(values);
    var lines := [""] + rest;
    assert lines[0] == "" && lines[1..] == rest;
    if values != [] {
      TerminatedJoins(values);
      assert DropFinalFeed(data) == Join(values, "\n");
      var first := Event(if kind == "" then "message" else kind, DropFinalFeed(data));
      assert ([first] + Events(rest, "", ""))[1..] == Events(rest, "", "");
    }
  }

  lemma MessagesOfBlock(block: seq<string>, rest: seq<string>)
    requires "" !in block
    ensures Messages(Events(block + ([""] + rest), "", "")) ==
      MessageData(block) + Messages(Events(rest, "", ""))
  {
    SkipStandard(block, [""] + rest, "", "");
    assert "" + Terminated(DataValues(block)) == Terminated(DataValues(block));
    MessagesAtBlank(rest, DataValues(block), LastOr(EventValues(block), ""));
  }

  lemma MessageFirstBlock(block: seq<string>, rest: seq<string>)
    requires "" !in block
    ensures ShownOf(Messages(Events(block + ([""] + rest), "", "")))
      == MessageBlock(block) + ShownOf(Messages(Events(rest, "", "")))
  {
    MessagesOfBlock(block, rest);
    ShownAppend(MessageData(block), Messages(Events(rest, "", "")));
  }

  /** The messages of the standard, block by block. */
  lemma {:induction false} MessagesByBlocks(lines: seq<string>)
    ensures ShownOf(Messages(Events(lines, "", ""))) == Flatten(Each(MessageBlock, Blocks(lines)))
    decreases |lines|
  {
    var k := BlockLength(lines);
    if k == |lines| {
      assert lines[..k] == lines;
      EventsOfTail(lines, "", "");
    } else {
      var block, rest := lines[..k], lines[k + 1..];
      BlocksStep(lines);
      MessageFirstBlock(block, rest);
      MessagesByBlocks(rest);
      EachOfCons(MessageBlock, block, Blocks(rest));
    }
  }

  // --------------------------------------------------- payloads and their blocks

  /** A payload together with the number of the block whose data it is. */
  datatype Sent = Sent(block: nat, payload: string)

  function Tagged(i: nat, payloads: seq<string>): (r: seq<Sent>)
    ensures |r| == |payloads|
  {
    seq(|payloads|, k requires 0 <= k < |payloads| => Sent(i, payloads[k]))
  }

  function PayloadsOf(sent: seq<Sent>): (r: seq<string>)
    ensures |r| == |sent|
  {
    seq(|sent|, k requires 0 <= k < |sent| => sent[k].payload)
  }

  /** What the standard shows of the messages of the blocks, numbered from i. */
  function StandardSent(blocks: seq<seq<string>>, i: nat): seq<Sent> {
    if blocks == [] then [] else Tagged(i, MessageBlock(blocks[0])) + StandardSent(blocks[1..], i + 1)
  }

  /** The data of a block that is left in the buffer. */
  function LastData(block: seq<string>): string { LastOr(DataTexts(block), "") }

  /** The block whose data is in the buffer at the end of a block. */
  function HeldAt(block: seq<string>, held: seq<string>): seq<string> {
    if DataTexts(block) == [] then held else block
  }

  function OriginAt(block: seq<string>, i: nat, origin: nat): nat {
    if DataTexts(block) == [] then origin else i
  }

  function EventAt(block: seq<string>, event: string): string { LastOr(EventTexts(block), event) }

  /** What the continuing reader shows of the blocks, numbered from i, while its
      buffer holds the data of the block held, the one numbered origin. */
  function ContinuedSent(blocks: seq<seq<string>>, i: nat, held: seq<string>, origin: nat, event: string): seq<Sent>
    decreases |blocks|, 0
  {
    if blocks == [] then []
    else
      var h, o, e := HeldAt(blocks[0], held), OriginAt(blocks[0], i, origin), EventAt(blocks[0], event);
      SentAt(blocks[1..], i + 1, h, o, e)
  }

  /** The end of a block: the data that the buffer holds may go out. */
  function SentAt(rest: seq<seq<string>>, i: nat, held: seq<string>, origin: nat, event: string): seq<Sent>
    decreases |rest|, 1
  {
    if IsMessage(LastData(held), event) then Tagged(origin, Shown(LastData(held))) + ContinuedSent(rest, i, [], 0, "")
    else ContinuedSent(rest, i, held, origin, event)
  }

  /** Without the numbers these are the payloads that the reader delivers. */
  lemma {:induction false} ContinuedPayloads(
    blocks: seq<seq<string>>, i: nat, held: seq<string>, origin: nat, event: string)
    ensures PayloadsOf(ContinuedSent(blocks, i, held, origin, event))
      == ShownOf(ContinuedBlocks(blocks, LastData(held), event))
    decreases |blocks|
  {
    if blocks != [] {
      var h, o, e := HeldAt(blocks[0], held), OriginAt(blocks[0], i, origin), EventAt(blocks[0], event);
      assert LastOr(DataTexts(blocks[0]), LastData(held)) == LastData(h);
      if IsMessage(LastData(h), e) {
        ContinuedPayloads(blocks[1..], i + 1, [], 0, "");
        PayloadsAppend(o, Shown(LastData(h)), ContinuedSent(blocks[1..], i + 1, [], 0, ""));
        ShownCons(LastData(h), ContinuedBlocks(blocks[1..], "", ""));
      } else {
        ContinuedPayloads(blocks[1..], i + 1, h, o, e);
      }
    }
  }

  lemma PayloadsAppend(i: nat, payloads: seq<string>, sent: seq<Sent>)
    ensures PayloadsOf(Tagged(i, payloads) + sent) == payloads + PayloadsOf(sent)
  {
  }

  lemma ShownCons(payload: string, payloads: seq<string>)
    ensures ShownOf([payload] + payloads) == Shown(payload) + ShownOf(payloads)
  {
    assert ([payload] + payloads)[1..] == payloads;
  }

  lemma {:induction false} StandardSentPayloads(blocks: seq<seq<string>>, i: nat)
    ensures PayloadsOf(StandardSent(blocks, i)) == Flatten(Each(MessageBlock, blocks))
  {
    if blocks != [] {
      assert blocks == [blocks[0]] + blocks[1..];
      StandardSentPayloads(blocks[1..], i + 1);
      EachOfCons(MessageBlock, blocks[0], blocks[1..]);
      PayloadsAppend(i, MessageBlock(blocks[0]), StandardSent(blocks[1..], i + 1));
    }
  }

  // -------------------------------------------------------- the exact condition

  /** How many characters of a block the standard shows as a message, not counting
      white space. */
  function Due(block: seq<string>): nat {
    if HasMessageType(block) then Weights(DataTexts(block)) else 0
  }

  predicate IsOwed(block: seq<string>) { Due(block) > 0 }

  /** The last data line alone says what the standard shows of the block: it is blank
      if that is nothing, and otherwise the only one that is not. */
  predicate LastSaysIt(block: seq<string>) { Weight(LastData(block)) == Due(block) }

  /** While the buffer holds the data of the block held: no data that is owed is
      replaced or left over, and what goes out is what is owed. */
  predicate InStep(blocks: seq<seq<string>>, held: seq<string>, event: string)
    decreases |blocks|, 0
  {
    if blocks == [] then !IsOwed(held)
    else
      && (DataTexts(blocks[0]) != [] ==> !IsOwed(held))
      && InStepAt(blocks[1..], HeldAt(blocks[0], held), EventAt(blocks[0], event))
  }

  predicate InStepAt(rest: seq<seq<string>>, held: seq<string>, event: string)
    decreases |rest|, 1
  {
    if IsMessage(LastData(held), event) then LastSaysIt(held) && InStep(rest, [], "")
    else InStep(rest, held, event)
  }

  lemma OwedIsShown(block: seq<string>)
    ensures |MessageBlock(block)| <= 1
    ensures IsOwed(block) <==> MessageBlock(block) != []
  {
    var values := DataValues(block);
    WeightOfValues(block);
    WeightOfJoin(values);
    if values != [] {
      var joined := Join(values, "\n");
      ShownOfOne(joined);
      TrimEmptyIff(joined, IsGoSpace);
      NoWeight(joined);
    }
  }

  lemma ShownByWeight(payload: string)
    ensures Shown(payload) == [] <==> Weight(payload) == 0
  {
    TrimEmptyIff(payload, IsGoSpace);
    NoWeight(payload);
  }

  lemma AgentShowsLast(block: seq<string>)
    requires DataTexts(block) != []
    ensures AgentBlock(block) == Shown(LastData(block))
  {
  }

  lemma LastAgainstStandard(block: seq<string>)
    requires DataTexts(block) != []
    ensures Shown(LastData(block)) == ShownBlock(block) <==> Weight(LastData(block)) == Weights(DataTexts(block))
  {
    MatchesByWeight(block);
    AgentShowsLast(block);
  }

  lemma MatchesByWeight(block: seq<string>)
    requires DataTexts(block) != []
    ensures AgentBlock(block) == ShownBlock(block) <==> Weight(LastData(block)) == Weights(DataTexts(block))
  {
    BlockMatches(block);
    SpeaksByWeight(block);
  }

  lemma SaysWhatIsOwed(block: seq<string>)
    requires DataTexts(block) != []
    ensures LastSaysIt(block) <==> Shown(LastData(block)) == MessageBlock(block)
  {
    LastAgainstStandard(block);
    ShownByWeight(LastData(block));
  }

  ghost predicate From(sent: seq<Sent>, i: nat) { forall k | 0 <= k < |sent| :: sent[k].block >= i }

  lemma {:induction false} StandardFrom(blocks: seq<seq<string>>, i: nat)
    ensures From(StandardSent(blocks, i), i)
  {
    if blocks != [] {
      StandardFrom(blocks[1..], i + 1);
      FromAppend(i, MessageBlock(blocks[0]), StandardSent(blocks[1..], i + 1), i);
    }
  }

  lemma FromAppend(o: nat, payloads: seq<string>, sent: seq<Sent>, i: nat)
    requires o >= i && From(sent, i)
    ensures From(Tagged(o, payloads) + sent, i)
  {
  }

  lemma {:induction false} ContinuedFrom(
    blocks: seq<seq<string>>, i: nat, held: seq<string>, origin: nat, event: string, m: nat)
    requires m <= i
    requires origin >= m || DataTexts(held) == [] || (blocks != [] && DataTexts(blocks[0]) != [])
    ensures From(ContinuedSent(blocks, i, held, origin, event), m)
    decreases |blocks|
  {
    if blocks != [] {
      var h, o, e := HeldAt(blocks[0], held), OriginAt(blocks[0], i, origin), EventAt(blocks[0], event);
      if IsMessage(LastData(h), e) {
        ContinuedFrom(blocks[1..], i + 1, [], 0, "", m);
        FromAppend(o, Shown(LastData(h)), ContinuedSent(blocks[1..], i + 1, [], 0, ""), m);
      } else {
        ContinuedFrom(blocks[1..], i + 1, h, o, e, m);
      }
    }
  }

  /** Payloads of one block in front of payloads of later blocks. */
  lemma SameSplit(o: nat, p: seq<string>, x: seq<Sent>, q: seq<string>, y: seq<Sent>)
    requires From(x, o + 1) && From(y, o + 1) && |p| <= 1 && |q| <= 1
    ensures Tagged(o, p) + x == Tagged(o, q) + y <==> p == q && x == y
  {
    var l, r := Tagged(o, p) + x, Tagged(o, q) + y;
    assert p == [] ==> From(l, o + 1);
    assert q == [] ==> From(r, o + 1);
    assert p != [] ==> l[0] == Sent(o, p[0]);
    assert q != [] ==> r[0] == Sent(o, q[0]);
    if l == r {
      assert p == [] <==> q == [];
      assert x == l[|p|..] && y == r[|q|..];
    }
  }

  /** What the reader shows is what the standard owes for the block held and then
      dispatches for the others. */
  ghost predicate Agree(blocks: seq<seq<string>>, i: nat, held: seq<string>, origin: nat, event: string) {
    ContinuedSent(blocks, i, held, origin, event) == Tagged(origin, MessageBlock(held)) + StandardSent(blocks, i)
  }

  /** The same at the end of a block. */
  ghost predicate AgreeAt(rest: seq<seq<string>>, i: nat, held: seq<string>, origin: nat, event: string) {
    SentAt(rest, i, held, origin, event) == Tagged(origin, MessageBlock(held)) + StandardSent(rest, i)
  }

  /** A block with data: nothing may be owed any more, and the rest goes on from it. */
  lemma DataArrives(blocks: seq<seq<string>>, i: nat, held: seq<string>, origin: nat, event: string)
    requires blocks != [] && DataTexts(blocks[0]) != [] && origin < i
    ensures Agree(blocks, i, held, origin, event) <==>
      !IsOwed(held) && AgreeAt(blocks[1..], i + 1, blocks[0], i, EventAt(blocks[0], event))
    ensures InStep(blocks, held, event) <==>
      !IsOwed(held) && InStepAt(blocks[1..], blocks[0], EventAt(blocks[0], event))
  {
    var sent := ContinuedSent(blocks, i, held, origin, event);
    OwedIsShown(held);
    ContinuedFrom(blocks, i, held, origin, event, i);
    StandardFrom(blocks, i);
    SameSplit(origin, [], sent, MessageBlock(held), StandardSent(blocks, i));
    assert Tagged(origin, []) + sent == sent;
  }

  /** A block without data dispatches nothing. */
  lemma NoDataArrives(blocks: seq<seq<string>>, i: nat, held: seq<string>, origin: nat, event: string)
    requires blocks != [] && DataTexts(blocks[0]) == []
    ensures Agree(blocks, i, held, origin, event) <==>
      AgreeAt(blocks[1..], i + 1, held, origin, EventAt(blocks[0], event))
    ensures InStep(blocks, held, event) <==> InStepAt(blocks[1..], held, EventAt(blocks[0], event))
  {
    OwedIsShown(blocks[0]);
    assert Tagged(i, []) + StandardSent(blocks[1..], i + 1) == StandardSent(blocks[1..], i + 1);
  }

  lemma NothingLeft(i: nat, held: seq<string>, origin: nat, event: string)
    ensures Agree([], i, held, origin, event) <==> !IsOwed(held)
  {
    OwedIsShown(held);
    assert Tagged(origin, MessageBlock(held)) + [] == Tagged(origin, MessageBlock(held));
  }

  lemma AgainstNoData(blocks: seq<seq<string>>, i: nat, held: seq<string>, origin: nat, event: string)
    requires blocks != [] && DataTexts(blocks[0]) == []
    requires var e := EventAt(blocks[0], event);
      InStepAt(blocks[1..], held, e) == AgreeAt(blocks[1..], i + 1, held, origin, e)
    ensures InStep(blocks, held, event) == Agree(blocks, i, held, origin, event)
  {
    NoDataArrives(blocks, i, held, origin, event);
  }

  lemma AgainstData(blocks: seq<seq<string>>, i: nat, held: seq<string>, origin: nat, event: string)
    requires origin < i && blocks != [] && DataTexts(blocks[0]) != []
    requires var e := EventAt(blocks[0], event);
      InStepAt(blocks[1..], blocks[0], e) == AgreeAt(blocks[1..], i + 1, blocks[0], i, e)
    ensures InStep(blocks, held, event) == Agree(blocks, i, held, origin, event)
  {
    DataArrives(blocks, i, held, origin, event);
  }

  /** They agree exactly when they stay in step. */
  lemma {:induction false} SentAgainst(
    blocks: seq<seq<string>>, i: nat, held: seq<string>, origin: nat, event: string)
    requires origin < i
    ensures InStep(blocks, held, event) == Agree(blocks, i, held, origin, event)
    decreases |blocks|, 1
  {
    if blocks == [] {
      NothingLeft(i, held, origin, event);
    } else {
      var rest, e := blocks[1..], EventAt(blocks[0], event);
      if DataTexts(blocks[0]) == [] {
        SentAgainstAt(rest, i + 1, held, origin, e);
        AgainstNoData(blocks, i, held, origin, event);
      } else {
        SentAgainstAt(rest, i + 1, blocks[0], i, e);
        AgainstData(blocks, i, held, origin, event);
      }
    }
  }

  lemma {:induction false} SentAgainstAt(
    rest: seq<seq<string>>, i: nat, held: seq<string>, origin: nat, event: string)
    requires origin < i
    ensures InStepAt(rest, held, event) == AgreeAt(rest, i, held, origin, event)
    decreases |rest|, 2
  {
    if IsMessage(LastData(held), event) {
      var later := ContinuedSent(rest, i, [], 0, "");
      SentAgainst(rest, i, [], 0, "");
      OwedIsShown([]);
      assert Tagged(0, []) + StandardSent(rest, i) == StandardSent(rest, i);
      ContinuedFrom(rest, i, [], 0, "", i);
      StandardFrom(rest, i);
      OwedIsShown(held);
      SaysWhatIsOwed(held);
      SameSplit(origin, Shown(LastData(held)), later, MessageBlock(held), StandardSent(rest, i));
    } else {
      SentAgainst(rest, i, held, origin, event);
    }
  }

  /** For every stream: up to white space, the continuing reader delivers for every
      block just what the standard dispatches as a message for it, in order, exactly
      when the two stay in step; then the payloads delivered are the same. */
  lemma ContinuedMatchesMessages(lines: seq<string>)
    ensures var blocks := Blocks(lines);
      var reader, standard := ContinuedSent(blocks, 1, [], 0, ""), StandardSent(blocks, 1);
      && PayloadsOf(reader) == ShownOf(FramesOf(CONTINUED, lines))
      && PayloadsOf(standard) == ShownOf(Messages(Events(lines, "", "")))
      && (reader == standard <==> InStep(blocks, [], ""))
  {
    var blocks := Blocks(lines);
    ContinuedPayloads(blocks, 1, [], 0, "");
    ContinuedByBlocks(lines, "", "");
    StandardSentPayloads(blocks, 1);
    MessagesByBlocks(lines);
    SentAgainst(blocks, 1, [], 0, "");
    OwedIsShown([]);
    assert Tagged(0, []) + StandardSent(blocks, 1) == StandardSent(blocks, 1);
  }

  // ------------------------------------------------------- where they part

  lemma OneBlock(block: seq<string>)
    requires "" !in block
    ensures FramesOf(AGENT, block + [""]) == AgentBlock(block)
    ensures FramesOf(KNOWLEDGE, block + [""]) == KnowledgeBlock(block)
    ensures StandardPayloads(block + [""]) == StandardBlock(block)
  {
    assert block + [""] == block + ([""] + []);
    var e := FramesFirstBlock(AGENT, block, [], "");
    var f := FramesFirstBlock(KNOWLEDGE, block, [], "");
    StandardFirstBlock(block, []);
  }

  lemma DataLineFirst(payload: string, rest: seq<string>)
    ensures DataTexts(["data:" + payload] + rest) == [payload] + DataTexts(rest)
    ensures DataValues(["data:" + payload] + rest) == [DropSpace(payload)] + DataValues(rest)
    ensures EventTexts(["data:" + payload] + rest) == EventTexts(rest)
  {
    DataLine(payload);
    assert (["data:" + payload] + rest)[1..] == rest;
  }

  /** Two data lines in a block: the standard joins them, the agent keeps the last
      one only. */
  lemma LastLineOnly(first: string, second: string)
    ensures StandardPayloads(["data:" + first, "data:" + second, ""])
      == [DropSpace(first) + "\n" + DropSpace(second)]
    ensures TrimSpace(second) != "" ==>
      FramesOf(AGENT, ["data:" + first, "data:" + second, ""]) == [TrimSpace(second)]
  {
    var one, two := "data:" + first, "data:" + second;
    var block := [one, two];
    DataLineFirst(first, [two]);
    DataLineFirst(second, []);
    assert [one] + [two] == block && [two] + [] == [two];
    assert [DropSpace(first)] + [DropSpace(second)] == DataValues(block);
    JoinCons(DropSpace(first), [DropSpace(second)]);
    JoinCons(DropSpace(second), []);
    OneBlock(block);
    assert block + [""] == [one, two, ""];
  }

  /** A blank data line: the knowledge reader delivers it, the agent nothing. */
  lemma BlankDataDelivered(blank: string)
    requires blank != "" && AllOf(blank, IsGoSpace)
    ensures FramesOf(KNOWLEDGE, ["data:" + blank, ""]) == [blank]
    ensures FramesOf(AGENT, ["data:" + blank, ""]) == []
  {
    var block := ["data:" + blank];
    DataLineFirst(blank, []);
    assert block + [] == block && block + [""] == ["data:" + blank, ""];
    TrimEmptyIff(blank, IsGoSpace);
    OneBlock(block);
  }

  lemma AtTheEnd(value: string, kind: string)
    requires kind != ""
    ensures Events([""], "" + value + "\n", kind) == [Event(kind, value)]
  {
    var buffer := "" + value + "\n";
    assert DropFinalFeed(buffer) == value && [""][1..] == [];
    assert Events([], "", "") == [];
  }

  /** With a space after the colon of the event line the standard dispatches a
      message, and the continuing reader delivers nothing. */
  lemma SpacedMessageIgnored(payload: string)
    ensures Events(["event: message", "data:" + payload, ""], "", "") == [Event("message", DropSpace(payload))]
    ensures FramesOf(CONTINUED, ["event: message", "data:" + payload, ""]) == []
  {
    var event, data := "event: message", "data:" + payload;
    var lines := [event, data, ""];
    EventLine(" message");
    DataLine(payload);
    assert "event:" + " message" == event && DropSpace(" message") == "message";
    var l1, l2 := lines[1..], lines[2..];
    assert l1[1..] == l2 && l2 == [""];
    var buffer := "" + DropSpace(payload) + "\n";
    AtTheEnd(DropSpace(payload), "message");
    assert Events(l1, "", "message") == Events(l2, buffer, "message");
    assert data[0] != "event:message"[0] && event[6] != "event:message"[6];
    SilentWithoutMessage(lines, "", "");
  }

  /** The stale stream followed by a block with the same data. */
  function RepeatedStream(kind: string, payload: string): seq<string> {
    var last := ["data:" + payload] + ([""] + []);
    ["event:" + kind, "data:" + payload] + ([""] + (["event:message"] + ([""] + last)))
  }

  lemma RepeatedIsDelivered(kind: string, payload: string)
    requires kind != "message" && payload != ""
    ensures FramesOf(CONTINUED, RepeatedStream(kind, payload)) == [payload]
  {
    var three := ["data:" + payload];
    var last := three + ([""] + []);
    FirstTexts(kind, payload);
    SecondTexts();
    DataLineFirst(payload, []);
    assert three + [] == three;
    ContinuedFirstBlock(three, [], "", "");
    ContinuedFirstBlock(["event:message"], last, payload, kind);
    ContinuedFirstBlock(["event:" + kind, "data:" + payload], ["event:message"] + ([""] + last), "", "");
  }

  lemma ThreeBlocks(one: seq<string>, two: seq<string>, three: seq<string>)
    requires "" !in one && "" !in two && "" !in three
    ensures Messages(Events(one + ([""] + (two + ([""] + (three + ([""] + []))))), "", ""))
      == MessageData(one) + (MessageData(two) + MessageData(three))
  {
    var last := three + ([""] + []);
    MessagesOfBlock(three, []);
    MessagesOfBlock(two, last);
    MessagesOfBlock(one, two + ([""] + last));
  }

  lemma RepeatedIsMessage(kind: string, payload: string)
    requires DropSpace(kind) != "" && DropSpace(kind) != "message"
    ensures Messages(Events(RepeatedStream(kind, payload), "", "")) == [DropSpace(payload)]
  {
    FirstTexts(kind, payload);
    SecondTexts();
    DataLine(payload);
    OtherTypeHasNone(kind, payload);
    NoDataHasNone();
    DataIsMessage(payload);
    ThreeBlocks(["event:" + kind, "data:" + payload], ["event:message"], ["data:" + payload]);
  }

  lemma OtherTypeHasNone(kind: string, payload: string)
    requires DropSpace(kind) != "" && DropSpace(kind) != "message"
    ensures !HasMessageType(["event:" + kind, "data:" + payload])
    ensures MessageData(["event:" + kind, "data:" + payload]) == []
  {
    var block := ["event:" + kind, "data:" + payload];
    EventLine(kind);
    DataLineFirst(payload, []);
    DataLine(payload);
    assert block[1..] == ["data:" + payload] && ["data:" + payload][1..] == [];
    assert EventValues(["data:" + payload]) == [];
    assert EventValues(block) == [DropSpace(kind)];
  }

  lemma NoDataHasNone()
    ensures MessageData(["event:message"]) == []
  {
    EventLine("message");
    assert "event:" + "message" == "event:message" && ["event:message"][1..] == [];
    assert DataValues(["event:message"]) == [];
  }

  lemma DataIsMessage(payload: string)
    ensures MessageData(["data:" + payload]) == [DropSpace(payload)]
  {
    var block := ["data:" + payload];
    DataLine(payload);
    DataLineFirst(payload, []);
    assert block + [] == block && block[1..] == [];
    assert EventValues(block) == [] && DataValues(block) == [DropSpace(payload)];
    JoinCons(DropSpace(payload), []);
    assert [DropSpace(payload)] + [] == [DropSpace(payload)];
  }

  lemma BlocksOfCut(block: seq<string>, rest: seq<string>)
    requires "" !in block
    ensures Blocks(block + ([""] + rest)) == [block] + Blocks(rest)
  {
    var lines := block + ([""] + rest);
    var k := BlockLength(lines);
    assert forall j | 0 <= j < k :: lines[..k][j] == lines[j];
    assert forall j | 0 <= j < |block| :: lines[j] == block[j];
    assert lines[|block|] == "" && k == |block|;
    BlocksStep(lines);
    assert lines[..|block|] == block && lines[|block| + 1..] == rest;
  }

  lemma RepeatedOutOfStep(kind: string, payload: string)
    requires DropSpace(kind) != "" && DropSpace(kind) != "message" && kind != "message"
    requires !AllOf(payload, IsGoSpace)
    ensures !InStep(Blocks(RepeatedStream(kind, payload)), [], "")
  {
    var one, two, three := ["event:" + kind, "data:" + payload], ["event:message"], ["data:" + payload];
    var last := three + ([""] + []);
    var tail := two + ([""] + last);
    FirstTexts(kind, payload);
    SecondTexts();
    OtherTypeHasNone(kind, payload);
    BlocksOfCut(one, tail);
    BlocksOfCut(two, last);
    var later := Blocks(last);
    NoWeight(payload);
    StaleIsOutOfStep(one, two, later);
  }

  /** Data of another type that goes out with a message event. */
  lemma StaleIsOutOfStep(one: seq<string>, two: seq<string>, later: seq<seq<string>>)
    requires Due(one) == 0 && Weight(LastData(one)) > 0 && EventAt(one, "") != "message"
    requires DataTexts(two) == [] && EventAt(two, EventAt(one, "")) == "message"
    ensures !InStep([one] + ([two] + later), [], "")
  {
    assert ([one] + ([two] + later))[1..] == [two] + later && ([two] + later)[1..] == later;
    assert HeldAt(one, []) == one && HeldAt(two, one) == one;
    assert !LastSaysIt(one);
    assert !InStep([two] + later, one, EventAt(one, ""));
  }

  /** Equal payloads need not come from the same block: here the reader delivers the
      data of the first block and drops that of the third, which is the one that
      the standard dispatches as a message. */
  lemma EqualByAccident(kind: string, payload: string)
    requires DropSpace(kind) != "" && DropSpace(kind) != "message"
    requires !AllOf(payload, IsGoSpace) && payload[0] != ' '
    ensures FramesOf(CONTINUED, RepeatedStream(kind, payload))
      == Messages(Events(RepeatedStream(kind, payload), "", ""))
    ensures !InStep(Blocks(RepeatedStream(kind, payload)), [], "")
  {
    assert DropSpace("message") == "message";
    RepeatedIsDelivered(kind, payload);
    RepeatedIsMessage(kind, payload);
    RepeatedOutOfStep(kind, payload);
  }
}
