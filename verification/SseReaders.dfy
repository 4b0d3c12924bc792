/** The three readers of server-sent events and the standard they read (WHATWG
    HTML, section 9.2.6). A stream is the list of its lines, as the line scanner
    delivers them. */
module SseReaders {
  import opened Text

  // -------------------------------------------------------------------- lines

  /** White space as strings.TrimSpace knows it. */
  predicate IsGoSpace(c: char) {
    var n := c as int;
    9 <= n <= 13 || n == 32 || n == 0x85 || n == 0xa0 || n == 0x1680 || 0x2000 <= n <= 0x200a
    || n == 0x2028 || n == 0x2029 || n == 0x202f || n == 0x205f || n == 0x3000
  }

  /** Go's white space is Python's without the four separators U+001C to U+001F. */
  lemma GoSpaceIs(c: char)
    ensures IsGoSpace(c) <==> IsSpace(c) && !('\U{1c}' <= c <= '\U{1f}')
  {
  }

  function TrimSpace(s: string): string { Trim(s, IsGoSpace) }

  predicate HasPrefix(line: string, prefix: string) { prefix <= line }

  predicate IsData(line: string) { HasPrefix(line, "data:") }

  predicate IsEvent(line: string) { HasPrefix(line, "event:") }

  /** What follows the prefix. */
  function DataText(line: string): string
    requires IsData(line)
  {
    line[5..]
  }

  function EventText(line: string): string
    requires IsEvent(line)
  {
    line[6..]
  }

  lemma PrefixesDiffer(line: string)
    ensures !(IsData(line) && IsEvent(line))
  {
    if IsData(line) {
      assert line[0] == "data:"[0];
    }
    if IsEvent(line) {
      assert line[0] == "event:"[0];
    }
  }

  // ------------------------------------------------------------------- delivery

  /** What decoding a frame and calling back with it leads to. The n-th frame may
      meet a callback in any state. */
  datatype Verdict = Continue | BadJson | CallbackFailed | Terminal

  datatype Result = Finished | ParseError | CallbackError | StreamError | ReadError

  /** The payloads that reached the callback, and how the call ended. */
  datatype Outcome = Outcome(delivered: seq<string>, result: Result)

  function ResultOf(v: Verdict): Result {
    match v
    case Continue => Finished
    case BadJson => ParseError
    case CallbackFailed => CallbackError
    case Terminal => StreamError
  }

  /** Delivers frames one by one, up to the first failure or terminal frame. */
  function Deliver(frames: seq<string>, react: (nat, string) -> Verdict, n: nat, scanError: bool): Outcome
    decreases |frames|
  {
    if frames == [] then Outcome([], if scanError then ReadError else Finished)
    else
      var v := react(n, frames[0]);
      if v == Continue then
        var rest := Deliver(frames[1..], react, n + 1, scanError);
        Outcome([frames[0]] + rest.delivered, rest.result)
      else Outcome(if v == BadJson then [] else [frames[0]], ResultOf(v))
  }

  /** The first frame that ends the delivery, or the number of frames. */
  function Stop(frames: seq<string>, react: (nat, string) -> Verdict, n: nat): (k: nat)
    ensures k <= |frames|
    ensures forall i | 0 <= i < k :: react(n + i, frames[i]) == Continue
    ensures k < |frames| ==> react(n + k, frames[k]) != Continue
    decreases |frames|
  {
    if frames == [] || react(n, frames[0]) != Continue then 0
    else
      var k := Stop(frames[1..], react, n + 1);
      assert forall i | 1 <= i < k + 1 :: frames[i] == frames[1..][i - 1] && n + i == n + 1 + (i - 1);
      assert k + 1 < |frames| ==> frames[k + 1] == frames[1..][k] && n + (k + 1) == n + 1 + k;
      k + 1
  }

  /** What is delivered if frame k is the first to end the delivery. */
  function StoppedAt(frames: seq<string>, react: (nat, string) -> Verdict, n: nat, scanError: bool, k: nat): Outcome
    requires k <= |frames|
  {
    if k == |frames| then Outcome(frames, if scanError then ReadError else Finished)
    else
      var v := react(n + k, frames[k]);
      Outcome(if v == BadJson then frames[..k] else frames[..k + 1], ResultOf(v))
  }

  lemma StoppedLater(frames: seq<string>, react: (nat, string) -> Verdict, n: nat, scanError: bool, k: nat)
    requires k < |frames|
    ensures var rest := StoppedAt(frames[1..], react, n + 1, scanError, k);
      StoppedAt(frames, react, n, scanError, k + 1) == Outcome([frames[0]] + rest.delivered, rest.result)
  {
    assert frames == [frames[0]] + frames[1..];
    if k + 1 < |frames| {
      assert frames[..k + 1] == [frames[0]] + frames[1..][..k];
      assert frames[..k + 2] == [frames[0]] + frames[1..][..k + 1];
      assert n + (k + 1) == n + 1 + k;
    }
  }

  /** The callback gets every frame, once and in order, up to the first that fails
      or is terminal; a frame that does not decode is not delivered. */
  lemma {:induction false} DeliveredInOrder(
    frames: seq<string>, react: (nat, string) -> Verdict, n: nat, scanError: bool)
    ensures Deliver(frames, react, n, scanError) == StoppedAt(frames, react, n, scanError, Stop(frames, react, n))
    decreases |frames|
  {
    if frames != [] && react(n, frames[0]) == Continue {
      DeliveredInOrder(frames[1..], react, n + 1, scanError);
      StoppedLater(frames, react, n, scanError, Stop(frames[1..], react, n + 1));
    } else if frames != [] {
      assert frames[..0] == [] && frames[..1] == [frames[0]];
    }
  }

  // ---------------------------------------------------------------- the readers

  /** How a reader treats the text of a data line, and when it hands a frame over
      at a blank line. */
  datatype Reader = Reader(take: string -> string, ready: (string, string) -> bool)

  function Whole(s: string): string { s }

  predicate HasData(data: string, event: string) { data != "" }

  predicate IsMessage(data: string, event: string) { data != "" && event == "message" }

  const AGENT := Reader(TrimSpace, HasData)
  const KNOWLEDGE := Reader(Whole, HasData)
  const CONTINUED := Reader(Whole, IsMessage)

  function NextData(r: Reader, line: string, data: string): string {
    if IsData(line) then r.take(DataText(line)) else data
  }

  function NextEvent(line: string, event: string): string { if IsEvent(line) then EventText(line) else event }

  /** The frames a reader finds, from a state of its two buffers. */
  function Frames(r: Reader, lines: seq<string>, data: string, event: string): seq<string>
    decreases |lines|
  {
    if lines == [] then []
    else if lines[0] == "" then
      if r.ready(data, event) then [data] + Frames(r, lines[1..], "", "") else Frames(r, lines[1..], data, event)
    else Frames(r, lines[1..], NextData(r, lines[0], data), NextEvent(lines[0], event))
  }

  function FramesOf(r: Reader, lines: seq<string>): seq<string> { Frames(r, lines, "", "") }

  lemma DeliverOne(frames: seq<string>, react: (nat, string) -> Verdict, n: nat, scanError: bool, out: Outcome,
                   before: seq<string>)
    requires frames != []
    requires out.delivered == before + Deliver(frames, react, n, scanError).delivered
    requires out.result == Deliver(frames, react, n, scanError).result
    ensures react(n, frames[0]) == Continue ==>
      var rest := Deliver(frames[1..], react, n + 1, scanError);
      out.delivered == before + [frames[0]] + rest.delivered && out.result == rest.result
    ensures react(n, frames[0]) != Continue ==>
      out == Outcome(if react(n, frames[0]) == BadJson then before else before + [frames[0]],
                     ResultOf(react(n, frames[0])))
  {
  }

  /** processAgentSSEStream */
  method ProcessAgentStream(lines: seq<string>, scanError: bool, react: (nat, string) -> Verdict) returns (out: Outcome)
    ensures out == Deliver(FramesOf(AGENT, lines), react, 0, scanError)
  {
    ghost var whole := Deliver(FramesOf(AGENT, lines), react, 0, scanError);
    var data := "";
    ghost var event := "";
    var delivered: seq<string> := [];
    for i := 0 to |lines|
      invariant whole.delivered ==
        delivered + Deliver(Frames(AGENT, lines[i..], data, event), react, |delivered|, scanError).delivered
      invariant whole.result ==
        Deliver(Frames(AGENT, lines[i..], data, event), react, |delivered|, scanError).result
    {
      var line := lines[i];
      ghost var rest := lines[i..];
      assert rest[0] == line && rest[1..] == lines[i + 1..];
      if line == "" {
        if data != "" {
          DeliverOne(Frames(AGENT, rest, data, event), react, |delivered|, scanError, whole, delivered);
          assert Frames(AGENT, rest, data, event)[1..] == Frames(AGENT, rest[1..], "", "");
          var verdict := react(|delivered|, data);
          if verdict == BadJson {
            return Outcome(delivered, ParseError);
          }
          delivered := delivered + [data];
          if verdict == CallbackFailed {
            return Outcome(delivered, CallbackError);
          }
          if verdict == Terminal {
            return Outcome(delivered, StreamError);
          }
          data := "";
          event := "";
        }
        continue;
      }
      PrefixesDiffer(line);
      if IsEvent(line) {
        event := EventText(line);
        continue;
      }
      if IsData(line) {
        data := TrimSpace(DataText(line));
      }
    }
    out := Outcome(delivered, if scanError then ReadError else Finished);
  }

  /** The line loop of KnowledgeQAStream. */
  method ReadKnowledgeStream(lines: seq<string>, scanError: bool, react: (nat, string) -> Verdict)
    returns (out: Outcome)
    ensures out == Deliver(FramesOf(KNOWLEDGE, lines), react, 0, scanError)
  {
    ghost var whole := Deliver(FramesOf(KNOWLEDGE, lines), react, 0, scanError);
    var data, event := "", "";
    var messageCount := 0;
    var delivered: seq<string> := [];
    for i := 0 to |lines|
      invariant messageCount == |delivered|
      invariant whole.delivered ==
        delivered + Deliver(Frames(KNOWLEDGE, lines[i..], data, event), react, |delivered|, scanError).delivered
      invariant whole.result ==
        Deliver(Frames(KNOWLEDGE, lines[i..], data, event), react, |delivered|, scanError).result
    {
      var line := lines[i];
      ghost var rest := lines[i..];
      assert rest[0] == line && rest[1..] == lines[i + 1..];
      if line == "" {
        if data != "" {
          DeliverOne(Frames(KNOWLEDGE, rest, data, event), react, |delivered|, scanError, whole, delivered);
          assert Frames(KNOWLEDGE, rest, data, event)[1..] == Frames(KNOWLEDGE, rest[1..], "", "");
          var verdict := react(|delivered|, data);
          if verdict == BadJson {
            return Outcome(delivered, ParseError);
          }
          messageCount := messageCount + 1;
          delivered := delivered + [data];
          if verdict == CallbackFailed {
            return Outcome(delivered, CallbackError);
          }
          if verdict == Terminal {
            return Outcome(delivered, StreamError);
          }
          data := "";
          event := "";
        }
        continue;
      }
      if IsEvent(line) {
        event := EventText(line);
      }
      if IsData(line) {
        data := DataText(line);
      }
    }
    out := Outcome(delivered, if scanError then ReadError else Finished);
  }

  /** The line loop of ContinueStream. */
  method ReadContinuedStream(lines: seq<string>, scanError: bool, react: (nat, string) -> Verdict)
    returns (out: Outcome)
    ensures out == Deliver(FramesOf(CONTINUED, lines), react, 0, scanError)
  {
    ghost var whole := Deliver(FramesOf(CONTINUED, lines), react, 0, scanError);
    var data, event := "", "";
    var delivered: seq<string> := [];
    for i := 0 to |lines|
      invariant whole.delivered ==
        delivered + Deliver(Frames(CONTINUED, lines[i..], data, event), react, |delivered|, scanError).delivered
      invariant whole.result ==
        Deliver(Frames(CONTINUED, lines[i..], data, event), react, |delivered|, scanError).result
    {
      var line := lines[i];
      ghost var rest := lines[i..];
      assert rest[0] == line && rest[1..] == lines[i + 1..];
      if line == "" {
        if data != "" && event == "message" {
          DeliverOne(Frames(CONTINUED, rest, data, event), react, |delivered|, scanError, whole, delivered);
          assert Frames(CONTINUED, rest, data, event)[1..] == Frames(CONTINUED, rest[1..], "", "");
          var verdict := react(|delivered|, data);
          if verdict == BadJson {
            return Outcome(delivered, ParseError);
          }
          delivered := delivered + [data];
          if verdict == CallbackFailed {
            return Outcome(delivered, CallbackError);
          }
          if verdict == Terminal {
            return Outcome(delivered, StreamError);
          }
          data := "";
          event := "";
        }
        continue;
      }
      if IsEvent(line) {
        event := EventText(line);
      }
      if IsData(line) {
        data := DataText(line);
      }
    }
    out := Outcome(delivered, if scanError then ReadError else Finished);
  }
}
