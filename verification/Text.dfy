/** Strings as the Python and Go sources handle them: white space, trimming,
    splitting and joining. A string is a sequence of characters, a line is a
    string without a line break. */
module Text {

  /** Python's notion of white space (str.isspace, str.strip, str.split). */
  predicate IsSpace(c: char) {
    var n := c as int;
    9 <= n <= 13 || 28 <= n <= 32 || n == 0x85 || n == 0xa0 || n == 0x1680 || 0x2000 <= n <= 0x200a
    || n == 0x2028 || n == 0x2029 || n == 0x202f || n == 0x205f || n == 0x3000
  }

  predicate IsNewline(c: char) { c == '\n' }

  predicate IsBlankOrTab(c: char) { c == ' ' || c == '\t' }

  predicate IsBlank(c: char) { c == ' ' }

  predicate IsPipe(c: char) { c == '|' }

  /** The characters at which str.splitlines ends a line. */
  predicate IsLineBreak(c: char) {
    var n := c as int;
    10 <= n <= 13 || 28 <= n <= 30 || n == 0x85 || n == 0x2028 || n == 0x2029
  }

  predicate AllOf(s: string, p: char -> bool) {
    forall i | 0 <= i < |s| :: p(s[i])
  }

  predicate NoneOf(s: string, p: char -> bool) {
    forall i | 0 <= i < |s| :: !p(s[i])
  }

  function Repeated(c: char, n: nat): (r: string)
    ensures |r| == n && forall i | 0 <= i < n :: r[i] == c
  {
    seq(n, _ => c)
  }

  // ---------------------------------------------------------------- trimming

  /** lstrip: drops the longest prefix of characters that satisfy p. */
  function TrimLeft(s: string, p: char -> bool): (r: string)
    ensures |r| <= |s|
    ensures r != [] ==> !p(r[0])
  {
    if s != [] && p(s[0]) then TrimLeft(s[1..], p) else s
  }

  /** rstrip: drops the longest suffix of characters that satisfy p. */
  function TrimRight(s: string, p: char -> bool): (r: string)
    ensures |r| <= |s|
    ensures r != [] ==> !p(r[|r| - 1])
  {
    if s != [] && p(s[|s| - 1]) then TrimRight(s[..|s| - 1], p) else s
  }

  /** strip */
  function Trim(s: string, p: char -> bool): (r: string)
    ensures r != [] ==> !p(r[0]) && !p(r[|r| - 1])
  {
    TrimRightDrops(TrimLeft(s, p), p);
    TrimRight(TrimLeft(s, p), p)
  }

  lemma {:induction false} TrimLeftDrops(s: string, p: char -> bool)
    ensures TrimLeft(s, p) == s[|s| - |TrimLeft(s, p)|..]
    ensures AllOf(s[..|s| - |TrimLeft(s, p)|], p)
  {
    if s != [] && p(s[0]) {
      TrimLeftDrops(s[1..], p);
      assert forall i | 0 < i < |s| :: s[i] == s[1..][i - 1];
    }
  }

  lemma {:induction false} TrimRightDrops(s: string, p: char -> bool)
    ensures TrimRight(s, p) == s[..|TrimRight(s, p)|]
    ensures AllOf(s[|TrimRight(s, p)|..], p)
  {
    if s != [] && p(s[|s| - 1]) {
      TrimRightDrops(s[..|s| - 1], p);
      var k := |TrimRight(s, p)|;
      assert s[k..] == s[..|s| - 1][k..] + [s[|s| - 1]];
    }
  }

  /** What Trim removes is a prefix and a suffix of trimmed characters. */
  lemma TrimParts(s: string, p: char -> bool) returns (before: string, after: string)
    ensures s == before + Trim(s, p) + after
    ensures AllOf(before, p) && AllOf(after, p)
  {
    var t := TrimLeft(s, p);
    before, after := s[..|s| - |t|], t[|Trim(s, p)|..];
    TrimLeftDrops(s, p);
    TrimRightDrops(t, p);
  }

  /** A string that neither starts nor ends with a trimmed character is kept. */
  lemma TrimNothing(s: string, p: char -> bool)
    requires s != [] ==> !p(s[0]) && !p(s[|s| - 1])
    ensures TrimLeft(s, p) == s && TrimRight(s, p) == s && Trim(s, p) == s
  {
  }

  /** Trimming leaves nothing exactly when every character is trimmed. */
  lemma {:induction false} TrimEmptyIff(s: string, p: char -> bool)
    ensures Trim(s, p) == [] <==> AllOf(s, p)
  {
    var before, after := TrimParts(s, p);
    if Trim(s, p) == [] {
      assert s == before + after;
    } else {
      assert s[|before|] == Trim(s, p)[0];
    }
  }

  /** Trimming is idempotent. */
  lemma TrimTwice(s: string, p: char -> bool)
    ensures Trim(Trim(s, p), p) == Trim(s, p)
  {
    TrimNothing(Trim(s, p), p);
  }

  /** Trimmed characters around a text do not matter to trimming. */
  lemma TrimAround(before: string, s: string, after: string, p: char -> bool)
    requires AllOf(before, p) && AllOf(after, p)
    ensures Trim(before + s + after, p) == Trim(s, p)
  {
    var b, a := TrimParts(s, p);
    var t := Trim(s, p);
    if t == [] {
      TrimEmptyIff(s, p);
      TrimEmptyIff(before + s + after, p);
    } else {
      assert before + s + after == (before + b) + t + (a + after);
      TrimCore(before + b, t, a + after, p);
    }
  }

  lemma {:induction false} TrimCore(before: string, t: string, after: string, p: char -> bool)
    requires AllOf(before, p) && AllOf(after, p)
    requires t != [] && !p(t[0]) && !p(t[|t| - 1])
    ensures Trim(before + t + after, p) == t
  {
    DropBefore(before, t + after, p);
    assert before + t + after == before + (t + after);
    DropAfter(t, after, p);
  }

  lemma {:induction false} DropBefore(before: string, t: string, p: char -> bool)
    requires AllOf(before, p) && t != [] && !p(t[0])
    ensures TrimLeft(before + t, p) == t
  {
    if before == [] {
      assert before + t == t;
    } else {
      assert p(before[0]);
      DropBefore(before[1..], t, p);
      assert (before + t)[1..] == before[1..] + t;
    }
  }

  lemma {:induction false} DropAfter(t: string, after: string, p: char -> bool)
    requires AllOf(after, p) && t != [] && !p(t[|t| - 1])
    ensures TrimRight(t + after, p) == t
  {
    if after == [] {
      assert t + after == t;
    } else {
      assert p(after[|after| - 1]);
      DropAfter(t, after[..|after| - 1], p);
      assert (t + after)[..|t + after| - 1] == t + after[..|after| - 1];
    }
  }

  // -------------------------------------------------------- splitting, joining

  /** s.split(sep) for a one-character separator. */
  function Split(s: string, sep: char): (r: seq<string>)
    ensures |r| >= 1
    ensures forall part | part in r :: sep !in part
  {
    if s == [] then [[]]
    else
      var rest := Split(s[1..], sep);
      if s[0] == sep then [[]] + rest
      else [[s[0]] + rest[0]] + rest[1..]
  }

  /** glue.join(parts) */
  function Join(parts: seq<string>, glue: string): string {
    if |parts| == 0 then []
    else if |parts| == 1 then parts[0]
    else parts[0] + glue + Join(parts[1..], glue)
  }

  lemma {:induction false} SplitPrefix(part: string, rest: string, sep: char)
    requires sep !in part
    ensures Split(part + [sep] + rest, sep) == [part] + Split(rest, sep)
  {
    var s := part + [sep] + rest;
    if part == [] {
      assert s[1..] == rest;
    } else {
      SplitPrefix(part[1..], rest, sep);
      assert s[1..] == part[1..] + [sep] + rest;
      assert ([part[1..]] + Split(rest, sep))[1..] == Split(rest, sep);
      assert [s[0]] + part[1..] == part;
    }
  }

  lemma {:induction false} SplitOne(part: string, sep: char)
    requires sep !in part
    ensures Split(part, sep) == [part]
  {
    if part != [] {
      SplitOne(part[1..], sep);
      assert [part[0]] + part[1..] == part;
    }
  }

  /** Splitting undoes joining, for parts that do not hold the separator. */
  lemma {:induction false} SplitJoin(parts: seq<string>, sep: char)
    requires |parts| >= 1
    requires forall part | part in parts :: sep !in part
    ensures Split(Join(parts, [sep]), sep) == parts
  {
    if |parts| == 1 {
      SplitOne(parts[0], sep);
    } else {
      SplitJoin(parts[1..], sep);
      SplitPrefix(parts[0], Join(parts[1..], [sep]), sep);
    }
  }

  /** A character of a joined string comes from a part or from the glue. */
  lemma {:induction false} JoinChars(parts: seq<string>, glue: string, c: char)
    requires c in Join(parts, glue)
    ensures c in glue || exists part | part in parts :: c in part
  {
    if |parts| == 1 {
      assert c in parts[0];
    } else {
      if c !in parts[0] && c !in glue {
        JoinChars(parts[1..], glue, c);
      }
    }
  }

  lemma {:induction false} JoinAppend(parts: seq<string>, last: string, glue: string)
    requires |parts| >= 1
    ensures Join(parts + [last], glue) == Join(parts, glue) + glue + last
  {
    if |parts| == 1 {
      assert (parts + [last])[1..] == [last];
    } else {
      JoinAppend(parts[1..], last, glue);
      assert (parts + [last])[1..] == parts[1..] + [last];
      assert Join(parts + [last], glue) == parts[0] + glue + (Join(parts[1..], glue) + glue + last);
    }
  }

  /** s.split(): the longest runs of characters that are not white space. */
  function Tokens(s: string): (r: seq<string>)
    ensures s != [] && !IsSpace(s[0]) ==> r != []
    ensures r == [] <==> AllOf(s, IsSpace)
  {
    if s == [] then []
    else if IsSpace(s[0]) then Tokens(s[1..])
    else if |s| == 1 || IsSpace(s[1]) then [[s[0]]] + Tokens(s[1..])
    else
      var r := Tokens(s[1..]);
      [[s[0]] + r[0]] + r[1..]
  }

  /** str.splitlines: breaks at every line break, CR LF counting as one, and
      yields no empty last line after a final break. */
  function SplitLines(s: string): (r: seq<string>)
    ensures s != [] ==> |r| >= 1
    ensures forall part | part in r :: NoneOf(part, IsLineBreak)
    decreases |s|
  {
    if s == [] then []
    else if IsLineBreak(s[0]) then
      [[]] + SplitLines(if s[0] == '\r' && |s| > 1 && s[1] == '\n' then s[2..] else s[1..])
    else
      var rest := SplitLines(s[1..]);
      if rest == [] then [[s[0]]]
      else
        assert NoneOf(rest[0], IsLineBreak);
        [[s[0]] + rest[0]] + rest[1..]
  }

  lemma {:induction false} SplitLinesPrefix(part: string, rest: string)
    requires NoneOf(part, IsLineBreak)
    ensures SplitLines(part + "\n" + rest) == [part] + SplitLines(rest)
  {
    var s := part + "\n" + rest;
    if part == [] {
      assert s[0] == '\n';
      assert s[1..] == rest;
    } else {
      SplitLinesPrefix(part[1..], rest);
      assert s[1..] == part[1..] + "\n" + rest;
      assert ([part[1..]] + SplitLines(rest))[1..] == SplitLines(rest);
      assert [s[0]] + part[1..] == part;
    }
  }

  lemma {:induction false} SplitLinesOne(part: string)
    requires NoneOf(part, IsLineBreak) && part != []
    ensures SplitLines(part) == [part]
  {
    assert [part[0]] + part[1..] == part && !IsLineBreak(part[0]);
    if |part| > 1 {
      SplitLinesOne(part[1..]);
    } else {
      assert part[1..] == [] && [part[0]] == part;
    }
  }

  /** splitlines undoes a join with line feeds, for lines without line breaks
      of which the last is not empty. */
  lemma {:induction false} SplitLinesJoin(lines: seq<string>)
    requires |lines| >= 1 && lines[|lines| - 1] != []
    requires forall line | line in lines :: NoneOf(line, IsLineBreak)
    ensures SplitLines(Join(lines, "\n")) == lines
  {
    if |lines| == 1 {
      SplitLinesOne(lines[0]);
    } else {
      SplitLinesJoin(lines[1..]);
      SplitLinesPrefix(lines[0], Join(lines[1..], "\n"));
    }
  }

  /** Some strings of b left out give a. */
  ghost predicate IsSublist(a: seq<string>, b: seq<string>) {
    a == [] || (b != [] && ((a[0] == b[0] && IsSublist(a[1..], b[1..])) || IsSublist(a, b[1..])))
  }

  // --------------------------------------------------------------------- ink

  lemma Associate<T>(x: seq<T>, y: seq<T>, z: seq<T>)
    ensures x + (y + z) == x + y + z
  {
  }

  /** The characters of s that are not white space, in order. */
  function Ink(s: string): (r: string)
    ensures NoneOf(r, IsSpace)
  {
    if s == [] then [] else if IsSpace(s[0]) then Ink(s[1..]) else [s[0]] + Ink(s[1..])
  }

  lemma {:induction false} InkConcat(a: string, b: string)
    ensures Ink(a + b) == Ink(a) + Ink(b)
  {
    if a == [] {
      assert a + b == b;
    } else {
      InkConcat(a[1..], b);
      assert (a + b)[1..] == a[1..] + b;
      Associate([a[0]], Ink(a[1..]), Ink(b));
    }
  }

  lemma {:induction false} InkOfSpaces(s: string)
    requires AllOf(s, IsSpace)
    ensures Ink(s) == []
  {
    if s != [] {
      InkOfSpaces(s[1..]);
    }
  }

  lemma {:induction false} InkOfInk(s: string)
    requires NoneOf(s, IsSpace)
    ensures Ink(s) == s
  {
    if s != [] {
      InkOfInk(s[1..]);
    }
  }

  /** strip() loses no ink. */
  lemma InkOfTrim(s: string)
    ensures Ink(Trim(s, IsSpace)) == Ink(s)
  {
    var before, after := TrimParts(s, IsSpace);
    InkConcat(before + Trim(s, IsSpace), after);
    InkConcat(before, Trim(s, IsSpace));
    InkOfSpaces(before);
    InkOfSpaces(after);
  }

  /** White space between two strings adds no ink. */
  lemma InkGlue(a: string, glue: string, b: string)
    requires AllOf(glue, IsSpace)
    ensures Ink(a + glue + b) == Ink(a) + Ink(b)
  {
    InkConcat(a + glue, b);
    InkConcat(a, glue);
    InkOfSpaces(glue);
  }

  /** Concatenation of a list of strings. */
  function Concat(parts: seq<string>): string {
    if parts == [] then [] else parts[0] + Concat(parts[1..])
  }

  lemma {:induction false} ConcatAppend(a: seq<string>, b: seq<string>)
    ensures Concat(a + b) == Concat(a) + Concat(b)
  {
    if a == [] {
      assert a + b == b;
    } else {
      ConcatAppend(a[1..], b);
      assert (a + b)[1..] == a[1..] + b;
      Associate(a[0], Concat(a[1..]), Concat(b));
    }
  }

  lemma ConcatOne(a: string)
    ensures Concat([a]) == a
  {
    assert [a][1..] == [];
  }

  lemma ConcatTwo(a: string, b: string)
    ensures Concat([a, b]) == a + b
  {
    assert [a, b][1..] == [b];
    ConcatOne(b);
  }
}
