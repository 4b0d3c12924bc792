/** Word inference: which words the text of a visual line has. */
module LineWords {
  import opened Glyphs
  import opened Ordering
  import opened Text
  import opened TextLines

  // ------------------------------------------------------------------- tokens

  lemma {:induction false} TokensBlank(blank: string, s: string)
    requires AllOf(blank, IsSpace)
    ensures Tokens(blank + s) == Tokens(s)
  {
    if blank == [] {
      assert blank + s == s;
    } else {
      TokensBlank(blank[1..], s);
      assert (blank + s)[0] == blank[0] && (blank + s)[1..] == blank[1..] + s;
    }
  }

  lemma TokensCons(c: char, s: string)
    requires !IsSpace(c)
    ensures var r := Tokens(s);
      Tokens([c] + s) == if s == [] || IsSpace(s[0]) then [[c]] + r else [[c] + r[0]] + r[1..]
  {
    var t := [c] + s;
    assert t[0] == c && t[1..] == s && (s != [] ==> t[1] == s[0]);
  }

  /** A word in front of white space. */
  lemma {:induction false} TokensWord(word: string, s: string)
    requires word != [] && NoneOf(word, IsSpace) && (s == [] || IsSpace(s[0]))
    ensures Tokens(word + s) == [word] + Tokens(s)
  {
    var c, more := word[0], word[1..];
    assert word == [c] + more && word + s == [c] + (more + s);
    TokensCons(c, more + s);
    if more == [] {
      assert more + s == s;
    } else {
      assert (more + s)[0] == word[1];
      TokensWord(more, s);
    }
  }

  lemma GlueFirst(c: char, more: string, r: seq<string>)
    requires r != []
    ensures var joined := [more + r[0]] + r[1..];
      [[c] + joined[0]] + joined[1..] == [[c] + more + r[0]] + r[1..]
  {
    Associate([c], more, r[0]);
  }

  /** A word in front of other ink. */
  lemma {:induction false} TokensGlue(word: string, s: string)
    requires word != [] && NoneOf(word, IsSpace) && s != [] && !IsSpace(s[0])
    ensures Tokens(word + s) == [word + Tokens(s)[0]] + Tokens(s)[1..]
  {
    var c, more := word[0], word[1..];
    assert word == [c] + more && word + s == [c] + (more + s);
    TokensCons(c, more + s);
    if more == [] {
      assert more + s == s;
    } else {
      assert (more + s)[0] == word[1];
      TokensGlue(more, s);
      GlueFirst(c, more, Tokens(s));
    }
  }

  lemma {:induction false} TokensAllBlank(blank: string)
    requires AllOf(blank, IsSpace)
    ensures Tokens(blank) == []
  {
    TokensBlank(blank, []);
    assert blank + [] == blank;
  }

  lemma {:induction false} TokensBefore(s: string, blank: string)
    requires AllOf(blank, IsSpace)
    ensures Tokens(s + blank) == Tokens(s)
  {
    if s == [] {
      assert s + blank == blank;
      TokensAllBlank(blank);
    } else {
      TokensBefore(s[1..], blank);
      var t := s + blank;
      assert t[0] == s[0] && t[1..] == s[1..] + blank;
      if |s| == 1 {
        TokensAllBlank(blank);
        assert s[1..] + blank == blank;
      } else {
        assert t[1] == s[1];
      }
    }
  }

  lemma TokensOfTrim(s: string)
    ensures Tokens(Trim(s, IsSpace)) == Tokens(s)
  {
    var before, after := TrimParts(s, IsSpace);
    TokensBefore(before + Trim(s, IsSpace), after);
    TokensBlank(before, Trim(s, IsSpace));
  }

  // ------------------------------------------------------------- runs of glyphs

  /** A glyph of white space or a glyph of ink. */
  ghost predicate IsPure(g: Glyph) { AllSpace(g.ch) || (g.ch != [] && NoneOf(g.ch, IsSpace)) }

  ghost predicate AllPure(line: seq<Glyph>) { forall i | 0 <= i < |line| :: IsPure(line[i]) }

  lemma PureKind(g: Glyph)
    requires IsPure(g)
    ensures g.ch != []
    ensures AllSpace(g.ch) <==> IsSpace(g.ch[0])
    ensures EndsWith(g.ch, ' ') ==> AllSpace(g.ch)
  {
    assert !AllSpace(g.ch) ==> !IsSpace(g.ch[0]) && !IsSpace(g.ch[|g.ch| - 1]);
  }

  /** Whether a word cannot go on from a to the next glyph b. */
  predicate Breaks(a: Glyph, b: Glyph, threshold: real) { AllSpace(b.ch) || b.x0 - a.x1 > threshold }

  /** The runs of ink between white-space glyphs and wide gaps, as words. */
  function InkRuns(line: seq<Glyph>, threshold: real): (words: seq<string>)
    ensures line != [] && !AllSpace(line[0].ch) ==> words != []
  {
    if line == [] then []
    else if AllSpace(line[0].ch) then InkRuns(line[1..], threshold)
    else if |line| == 1 || Breaks(line[0], line[1], threshold) then [line[0].ch] + InkRuns(line[1..], threshold)
    else
      var rest := InkRuns(line[1..], threshold);
      [line[0].ch + rest[0]] + rest[1..]
  }

  /** What glyph g adds after prev; blank says whether the text so far ends in a
      blank. */
  function Added(prev: Glyph, g: Glyph, blank: bool, threshold: real): string {
    if AllSpace(g.ch) then (if blank then [] else g.ch)
    else if AllSpace(prev.ch) || g.x0 - prev.x1 <= threshold then g.ch
    else " " + g.ch
  }

  predicate EndsBlank(prev: Glyph, g: Glyph, blank: bool) {
    if AllSpace(g.ch) && blank then true else EndsWith(g.ch, ' ')
  }

  /** What the glyphs after prev add. */
  function TextAfter(prev: Glyph, rest: seq<Glyph>, blank: bool, threshold: real): string
    decreases |rest|
  {
    if rest == [] then []
    else
      var text := TextAfter(rest[0], rest[1..], EndsBlank(prev, rest[0], blank), threshold);
      Added(prev, rest[0], blank, threshold) + text
  }

  lemma NextPartsAdd(line: seq<Glyph>, i: nat, parts: seq<string>, threshold: real)
    requires AllPure(line) && 0 < i < |line| && parts != []
    ensures var blank := EndsWith(parts[|parts| - 1], ' ');
      var next := parts + NextParts(line, i, parts, threshold);
      && Concat(next) == Concat(parts) + Added(line[i - 1], line[i], blank, threshold)
      && EndsWith(next[|next| - 1], ' ') == EndsBlank(line[i - 1], line[i], blank)
  {
    var ch := line[i].ch;
    ConcatAppend(parts, NextParts(line, i, parts, threshold));
    ConcatOne(ch);
    ConcatTwo(" ", ch);
  }

  lemma {:induction false} PartsText(line: seq<Glyph>, i: nat, parts: seq<string>, threshold: real)
    requires AllPure(line) && 0 < i <= |line| && parts != []
    ensures Concat(PartsFrom(line, i, parts, threshold))
      == Concat(parts) + TextAfter(line[i - 1], line[i..], EndsWith(parts[|parts| - 1], ' '), threshold)
    decreases |line| - i
  {
    var blank := EndsWith(parts[|parts| - 1], ' ');
    if i < |line| {
      NextPartsAdd(line, i, parts, threshold);
      PartsText(line, i + 1, parts + NextParts(line, i, parts, threshold), threshold);
      TextAfterStep(line, i, blank, threshold, Concat(parts));
    } else {
      assert TextAfter(line[i - 1], line[i..], blank, threshold) == [];
    }
  }

  lemma TextAfterStep(line: seq<Glyph>, i: nat, blank: bool, threshold: real, before: string)
    requires 0 < i < |line|
    ensures var prev, g := line[i - 1], line[i];
      before + TextAfter(prev, line[i..], blank, threshold) ==
      before + Added(prev, g, blank, threshold) + TextAfter(g, line[i + 1..], EndsBlank(prev, g, blank), threshold)
  {
    var rest := line[i..];
    assert rest[0] == line[i] && rest[1..] == line[i + 1..];
    Associate(before, Added(line[i - 1], line[i], blank, threshold),
      TextAfter(line[i], line[i + 1..], EndsBlank(line[i - 1], line[i], blank), threshold));
  }

  /** The text of a line before it is trimmed. */
  function RawLine(line: seq<Glyph>): string
    requires line != []
  {
    line[0].ch + TextAfter(line[0], line[1..], EndsWith(line[0].ch, ' '), GapThreshold(line))
  }

  lemma LineTextIsRaw(line: seq<Glyph>)
    requires line != [] && AllPure(line)
    ensures LineText(line) == Trim(RawLine(line), IsSpace)
  {
    var threshold := GapThreshold(line);
    var first := NextParts(line, 0, [], threshold);
    ConcatOne(line[0].ch);
    assert first == [line[0].ch] && [] + first == first;
    assert PartsFrom(line, 0, [], threshold) == PartsFrom(line, 1, first, threshold);
    PartsText(line, 1, first, threshold);
  }

  // --------------------------------------------------------------- the words

  lemma InkRunsCons(prev: Glyph, g: Glyph, rest: seq<Glyph>, threshold: real)
    ensures var runs := InkRuns([g] + rest, threshold);
      InkRuns([prev] + ([g] + rest), threshold) ==
        if AllSpace(prev.ch) then runs
        else if Breaks(prev, g, threshold) then [prev.ch] + runs
        else [prev.ch + runs[0]] + runs[1..]
  {
    assert ([prev] + ([g] + rest))[1..] == [g] + rest;
  }

  /** One step: the tokens of prev and the text after it, from those of g and the
      text after it. */
  lemma TokensStep(prev: Glyph, g: Glyph, blank: bool, tail: string, threshold: real)
    requires IsPure(prev) && IsPure(g) && (blank ==> AllSpace(prev.ch))
    ensures var tokens := Tokens(g.ch + tail);
      Tokens(prev.ch + (Added(prev, g, blank, threshold) + tail)) ==
        if AllSpace(prev.ch) then tokens
        else if Breaks(prev, g, threshold) then [prev.ch] + tokens
        else [prev.ch + tokens[0]] + tokens[1..]
  {
    var added := Added(prev, g, blank, threshold);
    var text := g.ch + tail;
    PureKind(prev);
    PureKind(g);
    assert text[0] == g.ch[0];
    if AllSpace(prev.ch) {
      TokensBlank(prev.ch, added + tail);
      if added == [] {
        TokensBlank(g.ch, tail);
        assert added + tail == tail;
      }
    } else if AllSpace(g.ch) {
      TokensWord(prev.ch, text);
    } else if Breaks(prev, g, threshold) {
      assert added + tail == " " + text;
      TokensWord(prev.ch, " " + text);
      TokensBlank(" ", text);
    } else {
      TokensGlue(prev.ch, text);
    }
  }

  lemma {:induction false} TokensAfter(prev: Glyph, rest: seq<Glyph>, blank: bool, threshold: real)
    requires IsPure(prev) && AllPure(rest) && (blank ==> AllSpace(prev.ch))
    ensures Tokens(prev.ch + TextAfter(prev, rest, blank, threshold)) == InkRuns([prev] + rest, threshold)
    decreases |rest|
  {
    PureKind(prev);
    if rest == [] {
      assert [prev] + rest == [prev] && [prev][1..] == [] && prev.ch + [] == prev.ch;
      if AllSpace(prev.ch) {
        TokensAllBlank(prev.ch);
      } else {
        TokensWord(prev.ch, []);
      }
    } else {
      var g, more := rest[0], rest[1..];
      var blank' := EndsBlank(prev, g, blank);
      PureKind(g);
      assert rest == [g] + more;
      TokensAfter(g, more, blank', threshold);
      TokensStep(prev, g, blank, TextAfter(g, more, blank', threshold), threshold);
      InkRunsCons(prev, g, more, threshold);
    }
  }

  /** In a line of white-space glyphs and ink glyphs, the words of the text are
      exactly the runs of ink between the white-space glyphs and the gaps wider
      than the threshold. */
  lemma WordsByGaps(line: seq<Glyph>)
    requires AllPure(line)
    ensures Tokens(LineText(line)) == InkRuns(line, GapThreshold(line))
  {
    if line != [] {
      LineTextIsRaw(line);
      TokensOfTrim(RawLine(line));
      PureKind(line[0]);
      TokensAfter(line[0], line[1..], EndsWith(line[0].ch, ' '), GapThreshold(line));
      assert [line[0]] + line[1..] == line;
    }
  }

  // ----------------------------------------------------------- how wide a gap is

  lemma {:induction false} WidthsAre(line: seq<Glyph>, w: real)
    ensures w in Widths(line) <==> exists i :: 0 <= i < |line| && line[i].x1 - line[i].x0 == w > 0.0
  {
    if line != [] {
      WidthsAre(line[1..], w);
      if i :| 0 <= i < |line| && line[i].x1 - line[i].x0 == w > 0.0 {
        assert i > 0 ==> line[1..][i - 1] == line[i];
      }
      if i :| 0 <= i < |line[1..]| && line[1..][i].x1 - line[1..][i].x0 == w > 0.0 {
        assert line[i + 1] == line[1..][i];
      }
    }
  }

  /** Every glyph of positive width is at least so wide and at most so wide. */
  ghost predicate WidthsBetween(line: seq<Glyph>, narrow: real, wide: real) {
    forall i | 0 <= i < |line| && line[i].x1 > line[i].x0 :: narrow <= line[i].x1 - line[i].x0 <= wide
  }

  ghost predicate HasWidth(line: seq<Glyph>) { exists i :: 0 <= i < |line| && line[i].x1 > line[i].x0 }

  /** A gap wider than 40 percent of the widest glyph of the line separates words, one
      of at most 40 percent of the narrowest does not; without any width it is 0.4. */
  lemma GapIs(line: seq<Glyph>, narrow: real, wide: real)
    requires WidthsBetween(line, narrow, wide)
    ensures if HasWidth(line) then 0.4 * narrow <= GapThreshold(line) <= 0.4 * wide else GapThreshold(line) == 0.4
  {
    var widths := Widths(line);
    forall w | w in widths ensures narrow <= w <= wide {
      WidthsAre(line, w);
    }
    if HasWidth(line) {
      var i :| 0 <= i < |line| && line[i].x1 > line[i].x0;
      WidthsAre(line, line[i].x1 - line[i].x0);
      MedianBetween(widths, narrow, wide);
    } else if widths != [] {
      WidthsAre(line, widths[0]);
      assert false;
    }
  }

  /** In a line of glyphs of one width the words are the runs between gaps wider than
      40 percent of that width. */
  lemma WordsByWidth(line: seq<Glyph>, w: real)
    requires AllPure(line) && HasWidth(line) && WidthsBetween(line, w, w)
    ensures Tokens(LineText(line)) == InkRuns(line, 0.4 * w)
  {
    WordsByGaps(line);
    GapIs(line, w, w);
  }

  // -------------------------------------------------------------- single blanks

  /** All white space is blanks, and no two of them meet. */
  ghost predicate SingleBlanks(s: string) {
    forall i | 0 <= i < |s| :: IsSpace(s[i]) ==> s[i] == ' ' && (i + 1 < |s| ==> !IsSpace(s[i + 1]))
  }

  /** Such a string without blanks around it is its words with blanks between. */
  ghost predicate IsSpaced(s: string) {
    SingleBlanks(s) && s != [] && !IsSpace(s[0]) && !IsSpace(s[|s| - 1])
  }

  lemma SpacedTail(s: string)
    requires IsSpaced(s) && |s| > 1
    ensures if IsSpace(s[1]) then |s| > 2 && s[1] == ' ' && IsSpaced(s[2..]) else IsSpaced(s[1..])
  {
    var k := if IsSpace(s[1]) then 2 else 1;
    assert forall i | 0 <= i < |s[k..]| :: s[k..][i] == s[i + k];
  }

  lemma {:induction false} JoinTokens(s: string)
    requires IsSpaced(s)
    ensures Join(Tokens(s), " ") == s
  {
    var c := s[0];
    assert s == [c] + s[1..];
    TokensCons(c, s[1..]);
    if |s| == 1 {
      assert Join([[c]], " ") == [c];
    } else {
      SpacedTail(s);
      if IsSpace(s[1]) {
        var rest := s[2..];
        assert s == [c] + " " + rest && s[1..] == " " + rest;
        TokensBlank(" ", rest);
        JoinTokens(rest);
        JoinFirst([c], Tokens(rest));
      } else {
        JoinTokens(s[1..]);
        JoinGlued(c, Tokens(s[1..]));
      }
    }
  }

  lemma JoinFirst(word: string, words: seq<string>)
    requires words != []
    ensures Join([word] + words, " ") == word + " " + Join(words, " ")
  {
    assert ([word] + words)[1..] == words;
  }

  lemma JoinGlued(c: char, words: seq<string>)
    requires words != []
    ensures Join([[c] + words[0]] + words[1..], " ") == [c] + Join(words, " ")
  {
    var glued := [[c] + words[0]] + words[1..];
    assert glued[1..] == words[1..];
  }

  /** A glyph of ink or a single blank. */
  ghost predicate IsPlain(g: Glyph) { g.ch == " " || (g.ch != [] && NoneOf(g.ch, IsSpace)) }

  ghost predicate AllPlain(line: seq<Glyph>) { forall i | 0 <= i < |line| :: IsPlain(line[i]) }

  lemma PlainIsPure(g: Glyph)
    requires IsPlain(g)
    ensures IsPure(g) && SingleBlanks(g.ch) && g.ch != []
    ensures if AllSpace(g.ch) then g.ch == " " else NoneOf(g.ch, IsSpace)
    ensures EndsWith(g.ch, ' ') <==> AllSpace(g.ch)
  {
    assert IsSpace(' ');
    if g.ch != " " {
      assert !IsSpace(g.ch[0]) && !IsSpace(g.ch[|g.ch| - 1]);
    }
  }

  lemma SingleAppend(a: string, b: string)
    requires SingleBlanks(a) && SingleBlanks(b)
    requires a != [] && b != [] && IsSpace(a[|a| - 1]) ==> !IsSpace(b[0])
    ensures SingleBlanks(a + b)
  {
  }

  lemma SingleStep(prev: Glyph, g: Glyph, tail: string, threshold: real)
    requires IsPlain(prev) && IsPlain(g) && SingleBlanks(g.ch + tail)
    ensures SingleBlanks(prev.ch + (Added(prev, g, AllSpace(prev.ch), threshold) + tail))
  {
    PlainIsPure(prev);
    PlainIsPure(g);
    var text := g.ch + tail;
    assert text[0] == g.ch[0];
    if AllSpace(prev.ch) && AllSpace(g.ch) {
      assert [] + tail == tail;
    } else if AllSpace(prev.ch) || AllSpace(g.ch) || g.x0 - prev.x1 <= threshold {
      SingleAppend(prev.ch, text);
    } else {
      SingleAppend(" ", text);
      assert " " + g.ch + tail == " " + text;
      SingleAppend(prev.ch, " " + text);
    }
  }

  lemma {:induction false} SingleAfter(prev: Glyph, rest: seq<Glyph>, threshold: real)
    requires IsPlain(prev) && AllPlain(rest)
    ensures SingleBlanks(prev.ch + TextAfter(prev, rest, AllSpace(prev.ch), threshold))
    decreases |rest|
  {
    PlainIsPure(prev);
    if rest == [] {
      assert prev.ch + [] == prev.ch;
    } else {
      PlainIsPure(rest[0]);
      SingleAfter(rest[0], rest[1..], threshold);
      SingleStep(prev, rest[0], TextAfter(rest[0], rest[1..], AllSpace(rest[0].ch), threshold), threshold);
    }
  }

  lemma SingleTrim(s: string)
    requires SingleBlanks(s)
    ensures SingleBlanks(Trim(s, IsSpace))
  {
    var before, after := TrimParts(s, IsSpace);
    var t := Trim(s, IsSpace);
    assert forall i | 0 <= i < |t| :: t[i] == s[|before| + i];
  }

  /** If the white-space glyphs are single blanks, the text is the words with one
      blank between them. */
  lemma OneBlankBetweenWords(line: seq<Glyph>)
    requires AllPlain(line)
    ensures LineText(line) == Join(InkRuns(line, GapThreshold(line)), " ")
  {
    if line != [] {
      forall i | 0 <= i < |line| ensures IsPure(line[i]) {
        PlainIsPure(line[i]);
      }
      LineTextIsRaw(line);
      PlainIsPure(line[0]);
      SingleAfter(line[0], line[1..], GapThreshold(line));
      SingleTrim(RawLine(line));
      WordsByGaps(line);
      if LineText(line) == [] {
        assert Tokens("") == [];
      } else {
        JoinTokens(LineText(line));
      }
    }
  }
}
