/** A text as the list of its lines, whatever its line ends are. */
module SourceText {
  import opened Text

  /** Every CR LF and every lone CR becomes LF. */
  function UnixLines(s: string): string
    decreases |s|
  {
    if s == [] then []
    else if s[0] == '\r' then "\n" + UnixLines(if |s| > 1 && s[1] == '\n' then s[2..] else s[1..])
    else [s[0]] + UnixLines(s[1..])
  }

  function SourceLines(text: string): seq<string> { Split(UnixLines(text), '\n') }

  /** No line holds the character c. */
  ghost predicate Lacks(lines: seq<string>, c: char) {
    forall i | 0 <= i < |lines| :: c !in lines[i]
  }

  lemma {:induction false} UnixLinesPlain(s: string)
    ensures '\r' !in UnixLines(s)
    ensures '\r' !in s ==> UnixLines(s) == s
    decreases |s|
  {
    if s != [] {
      UnixLinesPlain(if s[0] == '\r' && |s| > 1 && s[1] == '\n' then s[2..] else s[1..]);
    }
  }

  lemma SourceLinesLack(text: string)
    ensures Lacks(SourceLines(text), '\n') && Lacks(SourceLines(text), '\r')
  {
    UnixLinesPlain(text);
    SplitLacks(UnixLines(text), '\n', '\r');
  }

  lemma {:induction false} SplitLacks(s: string, sep: char, c: char)
    requires c !in s
    ensures Lacks(Split(s, sep), c)
  {
    if s != [] {
      SplitLacks(s[1..], sep, c);
    }
  }

  /** Lines come back from the text they were joined to; no lines come back as one
      empty line. */
  lemma ReadJoined(lines: seq<string>)
    requires Lacks(lines, '\n') && Lacks(lines, '\r')
    ensures SourceLines(Join(lines, "\n")) == if lines == [] then [[]] else lines
  {
    var joined := Join(lines, "\n");
    if '\r' in joined {
      JoinChars(lines, "\n", '\r');
      assert false;
    }
    UnixLinesPlain(joined);
    if lines != [] {
      SplitJoin(lines, '\n');
    }
  }

  /** A line feed, a carriage return, or both in this order. */
  predicate IsLineEnd(end: string, rest: string) {
    end == "\r\n" || end == "\n" || (end == "\r" && (rest == [] || rest[0] != '\n'))
  }

  lemma EndIsLineFeed(end: string, rest: string)
    requires IsLineEnd(end, rest)
    ensures UnixLines(end + rest) == "\n" + UnixLines(rest)
  {
    if end == "\r\n" {
      assert (end + rest)[2..] == rest;
    } else {
      assert (end + rest)[1..] == rest;
    }
  }

  /** The lines of a text are what stands between its line ends. */
  lemma {:induction false} FirstLine(line: string, end: string, rest: string)
    requires '\r' !in line && '\n' !in line && IsLineEnd(end, rest)
    ensures SourceLines(line + (end + rest)) == [line] + SourceLines(rest)
    ensures SourceLines(line) == [line]
  {
    if line == [] {
      EndIsLineFeed(end, rest);
      assert ("\n" + UnixLines(rest))[1..] == UnixLines(rest);
      assert line + (end + rest) == end + rest;
    } else {
      var text := line + (end + rest);
      FirstLine(line[1..], end, rest);
      assert text[0] == line[0] && text[1..] == line[1..] + (end + rest);
      assert line == [line[0]] + line[1..];
      CharBefore(line[0], line[1..] + (end + rest));
      CharBefore(line[0], line[1..]);
    }
  }

  lemma CharBefore(c: char, rest: string)
    requires c != '\r' && c != '\n'
    ensures SourceLines([c] + rest) == [[c] + SourceLines(rest)[0]] + SourceLines(rest)[1..]
  {
    assert ([c] + rest)[1..] == rest;
    assert ([c] + UnixLines(rest))[1..] == UnixLines(rest);
  }
}
