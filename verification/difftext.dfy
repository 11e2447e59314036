/** The diff-block notation written out from Diff values, and what `Parse`
    makes of such text: it reads every list of well-formed blocks back
    exactly, and the corner cases of parse.go (blank lines after the last
    block, a missing end marker, a missing separator) end as stated below. */
module DiffText {
  import opened Wrappers
  import opened GoStrings
  import opened FuzzyPatch
  import opened DiffParser

  const SEPARATOR_LINE := TEXT_SEPARATOR + "\n"
  const END_LINE := END_REPLACE + "\n"

  /** What follows the start-marker prefix: " line:N" and a line feed. */
  function HintText(n: int): string
  {
    " line:" + Itoa(n) + "\n"
  }

  function StartLine(n: int): string
  {
    START_SEARCH_PREFIX + HintText(n)
  }

  /** A block up to and including its replace body: no end marker yet. */
  function OpenBlock(d: Diff): string
  {
    StartLine(d.line) + d.search + SEPARATOR_LINE + d.replace
  }

  function Block(d: Diff): string
  {
    OpenBlock(d) + END_LINE
  }

  /** The blocks of `ds`, one after the other. */
  function Render(ds: seq<Diff>): string
  {
    if ds == [] then "" else Block(ds[0]) + Render(ds[1..])
  }

  /** A body the notation can carry: whole lines, none of them a marker. */
  predicate IsBody(s: string)
  {
    (s == "" || EndsWithNewline(s)) &&
    forall j :: 0 <= j < |TrimSplit(s)| ==> Classify(TrimSplit(s)[j]) == TextType
  }

  /** A Diff whose block reads back as itself: its hint fits in an int64
      and both bodies are bodies. */
  predicate WellFormed(d: Diff)
  {
    MIN_INT64 <= d.line <= MAX_INT64 && IsBody(d.search) && IsBody(d.replace)
  }

  predicate AllWellFormed(ds: seq<Diff>)
  {
    forall i :: 0 <= i < |ds| ==> WellFormed(ds[i])
  }

  /** The lines of an open block, and of a rendered list. */
  function OpenLines(d: Diff): seq<string>
  {
    [StartLine(d.line)] + TrimSplit(d.search) + [SEPARATOR_LINE] + TrimSplit(d.replace)
  }

  function RenderLines(ds: seq<Diff>): seq<string>
  {
    if ds == [] then [] else OpenLines(ds[0]) + [END_LINE] + RenderLines(ds[1..])
  }

  /** From index `c` on, the tokens carry `lines`: each one's kind and text. */
  predicate Spells(toks: seq<Token>, c: nat, lines: seq<string>)
  {
    c + |lines| <= |toks| &&
    forall j :: 0 <= j < |lines| ==> toks[c + j].typ == Classify(lines[j]) && toks[c + j].text == lines[j]
  }

  predicate AllSpace(s: string)
  {
    forall k :: 0 <= k < |s| ==> IsSpace(s[k])
  }

  // ----- Lines of the notation -----

  lemma TrimSpaceAround(x: string)
    requires x != "" && !IsSpace(x[0]) && !IsSpace(x[|x| - 1])
    ensures TrimSpace(" " + x + "\n") == x
  {
    hide TrimmedOf;
    var s := " " + x + "\n";
    assert s[..|s| - 1] == " " + x;
    assert TrimRightSpace(s) == " " + x;
    assert (" " + x)[1..] == x;
    assert TrimLeftSpace(" " + x) == x;
  }

  /** The hint a start line was written with is the hint parsed from it. */
  lemma HintReadsBack(n: int)
    requires MIN_INT64 <= n <= MAX_INT64
    ensures HintOf(StartLine(n)) == Success(n)
  {
    hide Atoi, Itoa, TrimSpace, TrimmedOf, TrimRightSpace, TrimLeftSpace, NatDigits, DigitsValue, Classify;
    var digits := Itoa(n);
    var suffix := HintText(n);
    var field := "line:" + digits;
    assert CutPrefix(StartLine(n), START_SEARCH_PREFIX).0 == suffix by {
      assert (START_SEARCH_PREFIX + suffix)[|START_SEARCH_PREFIX|..] == suffix;
    }
    assert TrimSpace(suffix) == field by {
      assert suffix == " " + field + "\n";
      TrimSpaceAround(field);
    }
    assert CutPrefix(field, "line:").0 == digits && CutPrefix(field, "line:").1 by {
      assert field[..5] == "line:" && field[5..] == digits;
    }
    AtoiItoa(n);
  }

  lemma StartLineIsLine(n: int)
    ensures EndsWithNewline(StartLine(n)) && NoInnerNewline(StartLine(n))
    ensures Classify(StartLine(n)) == StartSearchType
  {
    var line := StartLine(n);
    var digits := Itoa(n);
    assert line == START_SEARCH_PREFIX + " line:" + digits + "\n";
    forall k | 0 <= k < |line| - 1
      ensures line[k] != '\n'
    {
      var p := |START_SEARCH_PREFIX + " line:"|;
      if k >= p {
        assert line[k] == digits[k - p];
      }
    }
    ClassifyStart(HintText(n));
  }

  lemma SeparatorLineIsLine()
    ensures EndsWithNewline(SEPARATOR_LINE) && NoInnerNewline(SEPARATOR_LINE)
    ensures Classify(SEPARATOR_LINE) == TextSeparatorType
  {
    ClassifySeparator("\n");
  }

  lemma EndLineIsLine()
    ensures EndsWithNewline(END_LINE) && NoInnerNewline(END_LINE)
    ensures Classify(END_LINE) == EndReplaceType
  {
    ClassifyEnd("\n");
  }

  /** Two texts whose second ends in a line feed end in one together. */
  lemma EndsWithNewlineAppend(a: string, b: string)
    requires EndsWithNewline(b)
    ensures EndsWithNewline(a + b)
  {
    assert (a + b)[|a + b| - 1] == b[|b| - 1];
  }

  /** The lines of an open block are its start line, the search lines,
      the separator and the replace lines. */
  lemma OpenBlockLines(d: Diff)
    requires IsBody(d.search) && IsBody(d.replace)
    ensures TrimSplit(OpenBlock(d)) == OpenLines(d)
    ensures EndsWithNewline(OpenBlock(d))
  {
    var start := StartLine(d.line);
    StartLineIsLine(d.line);
    SeparatorLineIsLine();
    TrimSplitOneLine(start);
    TrimSplitOneLine(SEPARATOR_LINE);
    TrimSplitAppend(start, d.search);
    if d.search == "" {
      assert start + d.search == start;
    } else {
      EndsWithNewlineAppend(start, d.search);
    }
    TrimSplitAppend(start + d.search, SEPARATOR_LINE);
    EndsWithNewlineAppend(start + d.search, SEPARATOR_LINE);
    TrimSplitAppend(start + d.search + SEPARATOR_LINE, d.replace);
    if d.replace == "" {
      assert OpenBlock(d) == start + d.search + SEPARATOR_LINE;
    } else {
      EndsWithNewlineAppend(start + d.search + SEPARATOR_LINE, d.replace);
    }
  }

  lemma {:induction false} RenderedLines(ds: seq<Diff>)
    requires AllWellFormed(ds)
    ensures TrimSplit(Render(ds)) == RenderLines(ds)
    ensures Render(ds) == "" || EndsWithNewline(Render(ds))
  {
    if ds != [] {
      var d := ds[0];
      OpenBlockLines(d);
      EndLineIsLine();
      TrimSplitOneLine(END_LINE);
      TrimSplitAppend(OpenBlock(d), END_LINE);
      assert AllWellFormed(ds[1..]) by {
        forall i | 0 <= i < |ds[1..]| ensures WellFormed(ds[1..][i]) {
          assert ds[1..][i] == ds[i + 1];
        }
      }
      RenderedLines(ds[1..]);
      TrimSplitAppend(Block(d), Render(ds[1..]));
      EndsWithNewlineAppend(OpenBlock(d), END_LINE);
      if ds[1..] == [] {
        assert Render(ds) == Block(d) + "";
      } else {
        EndsWithNewlineAppend(Block(d), Render(ds[1..]));
      }
    }
  }

  // ----- Token streams that carry given lines -----

  /** The tokens of a text carry its lines, and EOF follows them. */
  lemma TokensSpell(input: string)
    ensures Spells(Tokens(input), 0, TrimSplit(input))
    ensures Tokens(input)[|TrimSplit(input)|] == Token(EOF, 0, "")
  {
  }

  lemma SpellsSplit(toks: seq<Token>, c: nat, a: seq<string>, b: seq<string>)
    requires Spells(toks, c, a + b)
    ensures Spells(toks, c, a) && Spells(toks, c + |a|, b)
  {
    forall j | 0 <= j < |a|
      ensures toks[c + j].typ == Classify(a[j]) && toks[c + j].text == a[j]
    {
      assert (a + b)[j] == a[j];
    }
    forall j | 0 <= j < |b|
      ensures toks[c + |a| + j].typ == Classify(b[j]) && toks[c + |a| + j].text == b[j]
    {
      assert (a + b)[|a| + j] == b[j];
    }
  }

  /** Text lines up to a token that is not text are read as their join. */
  lemma {:induction false} TextRun(toks: seq<Token>, c: nat, lines: seq<string>)
    requires Spells(toks, c, lines)
    requires forall j :: 0 <= j < |lines| ==> Classify(lines[j]) == TextType
    requires TokenAt(toks, c + |lines|).typ != TextType
    ensures TextRunFrom(toks, c).0 == Join(lines) && TextRunFrom(toks, c).1 == c + |lines|
    decreases |lines|
  {
    if lines != [] {
      assert lines == [lines[0]] + lines[1..];
      SpellsSplit(toks, c, [lines[0]], lines[1..]);
      TextRun(toks, c + 1, lines[1..]);
    }
  }

  /** A start line at `c` is read as its hint, and nothing is skipped. */
  lemma StartParses(toks: seq<Token>, c: nat, n: int)
    requires MIN_INT64 <= n <= MAX_INT64
    requires Spells(toks, c, [StartLine(n)])
    ensures StartSearchFrom(toks, c).0 == Success(n) && StartSearchFrom(toks, c).1 == c + 1
  {
    hide Classify, HintOf, StartLine, HintText, TrimSpace, TrimmedOf;
    StartLineIsLine(n);
    assert toks[c + 0] == toks[c] && [StartLine(n)][0] == StartLine(n);
    HintReadsBack(n);
  }

  /** An open block is read up to the token after its replace body, which
      is consumed: a Diff when that token is the end marker, else the zero Diff. */
  lemma OpenBlockParses(toks: seq<Token>, c: nat, d: Diff)
    requires WellFormed(d)
    requires Spells(toks, c, OpenLines(d))
    requires TokenAt(toks, c + |OpenLines(d)|).typ != TextType
    ensures DiffFrom(toks, c).1 == c + |OpenLines(d)| + 1
    ensures TokenAt(toks, c + |OpenLines(d)|).typ == EndReplaceType ==> DiffFrom(toks, c).0 == Success(d)
    ensures TokenAt(toks, c + |OpenLines(d)|).typ != EndReplaceType ==> DiffFrom(toks, c).0 == Success(ZERO_DIFF)
  {
    hide Classify, HintOf, SplitAfter, Itoa, Atoi, TrimSpace, TrimmedOf, TrimRightSpace, TrimLeftSpace, TrimRightEol, HasPrefix, StartLine, HintText;
    hide Tokens, StartSearchFrom, TrimSplit, Join;
    var sl, rl := TrimSplit(d.search), TrimSplit(d.replace);
    var head := [StartLine(d.line)];
    SpellsSplit(toks, c, head + sl + [SEPARATOR_LINE], rl);
    SpellsSplit(toks, c, head + sl, [SEPARATOR_LINE]);
    SpellsSplit(toks, c, head, sl);
    StartParses(toks, c, d.line);
    SeparatorLineIsLine();
    var sep := c + 1 + |sl|;
    assert toks[sep + 0] == toks[sep] && [SEPARATOR_LINE][0] == SEPARATOR_LINE;
    TextRun(toks, c + 1, sl);
    TextRun(toks, sep + 1, rl);
    DiffFromStarted(toks, c, d.line, c + 1);
  }

  /** One complete block is read as its Diff, and the loop goes on after it. */
  lemma BlockStep(toks: seq<Token>, c: nat, d: Diff)
    requires WellFormed(d)
    requires Spells(toks, c, OpenLines(d) + [END_LINE])
    ensures DiffsFrom(toks, c) == Prepend([d], DiffsFrom(toks, c + |OpenLines(d)| + 1))
  {
    hide Classify, HintOf, SplitAfter, Itoa, Atoi, TrimSpace, TrimmedOf, TrimRightSpace, TrimLeftSpace, TrimRightEol, HasPrefix, StartLine, HintText;
    hide Join, TrimSplit;
    var open := OpenLines(d);
    SpellsSplit(toks, c, open, [END_LINE]);
    EndLineIsLine();
    assert toks[c + |open| + 0] == toks[c + |open|] && [END_LINE][0] == END_LINE;
    OpenBlockParses(toks, c, d);
    StartLineIsLine(d.line);
    assert open[0] == StartLine(d.line) && toks[c + 0] == toks[c];
    DiffsFromStep(toks, c, Success(d), c + |open| + 1);
  }

  lemma PrependCons(d: Diff, ds: seq<Diff>, rest: Result<seq<Diff>, ParseError>)
    ensures Prepend([d], Prepend(ds, rest)) == Prepend([d] + ds, rest)
  {
    if rest.Success? {
      assert [d] + (ds + rest.value) == [d] + ds + rest.value;
    }
  }

  /** A token stream carrying rendered blocks yields their Diffs, then
      whatever the rest of the stream yields. */
  lemma {:induction false} BlocksParse(toks: seq<Token>, c: nat, ds: seq<Diff>)
    requires AllWellFormed(ds)
    requires Spells(toks, c, RenderLines(ds))
    ensures DiffsFrom(toks, c) == Prepend(ds, DiffsFrom(toks, c + |RenderLines(ds)|))
    decreases |ds|
  {
    hide Classify, HintOf, SplitAfter, Itoa, Atoi, TrimSpace, TrimmedOf, TrimRightSpace, TrimLeftSpace, TrimRightEol, HasPrefix, StartLine, HintText;
    hide TrimSplit, Join, DiffsFrom, OpenLines, Spells, WellFormed;
    if ds == [] {
      PrependNothing(DiffsFrom(toks, c));
    } else {
      var d, rest := ds[0], ds[1..];
      var next := c + |OpenLines(d)| + 1;
      SpellsSplit(toks, c, OpenLines(d) + [END_LINE], RenderLines(rest));
      BlockStep(toks, c, d);
      assert AllWellFormed(rest) by {
        forall i | 0 <= i < |rest| ensures WellFormed(rest[i]) {
          assert rest[i] == ds[i + 1];
        }
      }
      BlocksParse(toks, next, rest);
      PrependCons(d, rest, DiffsFrom(toks, next + |RenderLines(rest)|));
      assert [d] + rest == ds;
    }
  }

  /** At EOF the loop stops with nothing more. */
  lemma DiffsAtEof(toks: seq<Token>, c: nat)
    requires c < |toks| && toks[c].typ == EOF
    ensures DiffsFrom(toks, c) == Success([])
  {
  }

  /** A text line holding only white space is blank text. */
  lemma BlankLine(line: string)
    requires line != "" && AllSpace(line)
    ensures Classify(line) == TextType && TrimSpace(line) == ""
  {
    assert IsSpace(line[0]);
    var trim := TrimRightEol(line);
    if trim != "" {
      assert trim[0] == line[0];
    }
  }

  lemma {:induction false} SpaceLines(lines: seq<string>)
    requires AllSpace(Join(lines))
    ensures forall i :: 0 <= i < |lines| ==> AllSpace(lines[i])
  {
    if lines != [] {
      var s := Join(lines);
      var rest := Join(lines[1..]);
      assert s == lines[0] + rest;
      forall k | 0 <= k < |rest| ensures IsSpace(rest[k]) {
        assert rest[k] == s[|lines[0]| + k];
      }
      SpaceLines(lines[1..]);
      forall i | 0 <= i < |lines| ensures AllSpace(lines[i]) {
        if i == 0 {
          forall k | 0 <= k < |lines[0]| ensures IsSpace(lines[0][k]) {
            assert lines[0][k] == s[k];
          }
        } else {
          assert lines[i] == lines[1..][i - 1];
        }
      }
    }
  }

  lemma {:induction false} SkipToLast(toks: seq<Token>, c: nat)
    requires c < |toks|
    requires forall j :: c <= j < |toks| - 1 ==> IsBlank(toks[j])
    requires !IsBlank(toks[|toks| - 1])
    ensures SkipBlankFrom(toks, c) == |toks| - 1
    decreases |toks| - c
  {
    if c < |toks| - 1 {
      SkipToLast(toks, c + 1);
    }
  }

  /** Blank lines up to EOF: the loop goes on, and parseStartSearch meets EOF. */
  lemma BlankTailFails(toks: seq<Token>, c: nat)
    requires c < |toks| - 1
    requires toks[|toks| - 1] == Token(EOF, 0, "")
    requires forall j :: c <= j < |toks| - 1 ==> IsBlank(toks[j])
    ensures DiffsFrom(toks, c) == Failure(Unexpected(StartSearchType, EOF, "", 0))
  {
    hide TrimSpace, TrimmedOf, Classify;
    SkipToLast(toks, c);
    assert IsBlank(toks[c]);
  }

  // ----- What Parse makes of rendered text -----

  /** Parse reads back every list of well-formed blocks. */
  lemma ParseRender(ds: seq<Diff>)
    requires AllWellFormed(ds)
    ensures Diffs(Render(ds)) == Success(ds)
  {
    hide Classify, HintOf, SplitAfter, Itoa, Atoi, TrimSpace, TrimmedOf, TrimRightSpace, TrimLeftSpace, TrimRightEol, HasPrefix, StartLine, HintText;
    hide TrimSplit, Join, RenderLines, Render, DiffsFrom;
    var toks := Tokens(Render(ds));
    RenderedLines(ds);
    TokensSpell(Render(ds));
    BlocksParse(toks, 0, ds);
    DiffsAtEof(toks, |RenderLines(ds)|);
    assert ds + [] == ds;
  }

  lemma ParseEmpty()
    ensures Diffs("") == Success([])
  {
    assert Tokens("") == [Token(EOF, 0, "")];
  }

  /** Tokens carrying lines of white space are blank. */
  lemma BlankTokens(toks: seq<Token>, c: nat, lines: seq<string>)
    requires Spells(toks, c, lines)
    requires forall i :: 0 <= i < |lines| ==> lines[i] != "" && AllSpace(lines[i])
    ensures forall j :: c <= j < c + |lines| ==> IsBlank(toks[j])
  {
    hide TrimSpace, TrimmedOf, Classify;
    forall j | c <= j < c + |lines|
      ensures IsBlank(toks[j])
    {
      var i := j - c;
      assert toks[c + i] == toks[j];
      BlankLine(lines[i]);
    }
  }

  /** Blank lines after the last block (or an input of nothing but white
      space) make Parse fail: it expects a start marker and meets EOF. */
  lemma TrailingBlankLines(ds: seq<Diff>, w: string)
    requires AllWellFormed(ds)
    requires w != "" && AllSpace(w)
    ensures Diffs(Render(ds) + w) == Failure(Unexpected(StartSearchType, EOF, "", 0))
  {
    hide Classify, HintOf, SplitAfter, Itoa, Atoi, TrimSpace, TrimmedOf, TrimRightSpace, TrimLeftSpace, TrimRightEol, HasPrefix, StartLine, HintText;
    hide Join, DiffsFrom, RenderLines, Render, TrimSplit, Tokens, Spells, IsBlank;
    var toks := Tokens(Render(ds) + w);
    var rl, wl := RenderLines(ds), TrimSplit(w);
    RenderedLines(ds);
    TokensOfPair(Render(ds), w);
    BlocksParse(toks, 0, ds);
    SpaceLines(wl);
    BlankTokens(toks, |rl|, wl);
    BlankTailFails(toks, |rl|);
  }

  /** An open block followed by a separator line: the separator is
      consumed in the end marker's place and the zero Diff comes out. */
  lemma OpenBlockThenSeparator(toks: seq<Token>, c: nat, d: Diff)
    requires WellFormed(d)
    requires Spells(toks, c, OpenLines(d) + [SEPARATOR_LINE])
    ensures DiffsFrom(toks, c) == Prepend([ZERO_DIFF], DiffsFrom(toks, c + |OpenLines(d)| + 1))
  {
    hide Classify, HintOf, SplitAfter, Itoa, Atoi, TrimSpace, TrimmedOf, TrimRightSpace, TrimLeftSpace, TrimRightEol, HasPrefix, StartLine, HintText;
    hide Join, TrimSplit;
    var open := OpenLines(d);
    SpellsSplit(toks, c, open, [SEPARATOR_LINE]);
    SeparatorLineIsLine();
    assert toks[c + |open| + 0] == toks[c + |open|] && [SEPARATOR_LINE][0] == SEPARATOR_LINE;
    OpenBlockParses(toks, c, d);
    StartLineIsLine(d.line);
    assert open[0] == StartLine(d.line) && toks[c + 0] == toks[c];
    DiffsFromStep(toks, c, Success(ZERO_DIFF), c + |open| + 1);
  }

  /** A block whose end marker is missing, followed by a separator line:
      the separator is consumed in the end marker's place, the zero Diff is
      appended and parsing goes on. */
  lemma MissingEndThenSeparator(d: Diff, ds: seq<Diff>)
    requires WellFormed(d) && AllWellFormed(ds)
    ensures Diffs(OpenBlock(d) + SEPARATOR_LINE + Render(ds)) == Success([ZERO_DIFF] + ds)
  {
    hide Classify, HintOf, SplitAfter, Itoa, Atoi, TrimSpace, TrimmedOf, TrimRightSpace, TrimLeftSpace, TrimRightEol, HasPrefix, StartLine, HintText;
    hide Join, RenderLines, Render, OpenBlock, OpenLines, TrimSplit, Tokens, DiffsFrom;
    var head := OpenBlock(d) + SEPARATOR_LINE;
    var toks := Tokens(head + Render(ds));
    assert TrimSplit(head) == OpenLines(d) + [SEPARATOR_LINE] && EndsWithNewline(head) by {
      OpenBlockLines(d);
      SeparatorLineIsLine();
      TrimSplitOneLine(SEPARATOR_LINE);
      TrimSplitAppend(OpenBlock(d), SEPARATOR_LINE);
      EndsWithNewlineAppend(OpenBlock(d), SEPARATOR_LINE);
    }
    RenderedLines(ds);
    TokensOfPair(head, Render(ds));
    OpenBlockThenSeparator(toks, 0, d);
    BlocksParse(toks, |OpenLines(d)| + 1, ds);
    DiffsAtEof(toks, |toks| - 1);
    assert [ZERO_DIFF] + (ds + []) == [ZERO_DIFF] + ds;
  }

  /** The tokens of two texts laid end to end, the first made of whole
      lines: the first text's lines, the second's, then EOF. */
  lemma TokensOfPair(a: string, b: string)
    requires a == "" || EndsWithNewline(a)
    ensures |Tokens(a + b)| == |TrimSplit(a)| + |TrimSplit(b)| + 1
    ensures Spells(Tokens(a + b), 0, TrimSplit(a))
    ensures Spells(Tokens(a + b), |TrimSplit(a)|, TrimSplit(b))
    ensures Tokens(a + b)[|Tokens(a + b)| - 1] == Token(EOF, 0, "")
  {
    hide Classify, HintOf, SplitAfter, Itoa, Atoi, TrimSpace, TrimmedOf, TrimRightSpace, TrimLeftSpace, TrimRightEol, HasPrefix, StartLine, HintText;
    hide Join, Tokens;
    TrimSplitAppend(a, b);
    TokensSpell(a + b);
    SpellsSplit(Tokens(a + b), 0, TrimSplit(a), TrimSplit(b));
  }

  /** An open block as the last thing in the stream: EOF is consumed as its
      end marker, and the next round of the loop meets InvalidType. */
  lemma OpenBlockAtEnd(toks: seq<Token>, c: nat, d: Diff)
    requires WellFormed(d)
    requires Spells(toks, c, OpenLines(d))
    requires |toks| == c + |OpenLines(d)| + 1 && toks[|toks| - 1] == Token(EOF, 0, "")
    ensures DiffsFrom(toks, c) == Failure(Unexpected(StartSearchType, InvalidType, "", 0))
  {
    hide Classify, HintOf, SplitAfter, Itoa, Atoi, TrimSpace, TrimmedOf, TrimRightSpace, TrimLeftSpace, TrimRightEol, HasPrefix, StartLine, HintText;
    hide Join, TrimSplit;
    var open := OpenLines(d);
    OpenBlockParses(toks, c, d);
    StartLineIsLine(d.line);
    assert open[0] == StartLine(d.line) && toks[c + 0] == toks[c];
    DiffsFromStep(toks, c, Success(ZERO_DIFF), |toks|);
  }

  /** A last block whose end marker is missing: EOF is consumed in its
      place, the stream then yields InvalidType, and Parse fails on it. */
  lemma MissingEndAtEof(ds: seq<Diff>, d: Diff)
    requires AllWellFormed(ds) && WellFormed(d)
    ensures Diffs(Render(ds) + OpenBlock(d)) == Failure(Unexpected(StartSearchType, InvalidType, "", 0))
  {
    hide Classify, HintOf, SplitAfter, Itoa, Atoi, TrimSpace, TrimmedOf, TrimRightSpace, TrimLeftSpace, TrimRightEol, HasPrefix, StartLine, HintText;
    hide Join, RenderLines, Render, OpenBlock, OpenLines, TrimSplit, Tokens, DiffsFrom;
    var toks := Tokens(Render(ds) + OpenBlock(d));
    RenderedLines(ds);
    OpenBlockLines(d);
    TokensOfPair(Render(ds), OpenBlock(d));
    BlocksParse(toks, 0, ds);
    OpenBlockAtEnd(toks, |RenderLines(ds)|, d);
  }

  /** The lines of a start line, a body and an end marker with no separator. */
  lemma UnseparatedLines(n: int, body: string)
    requires IsBody(body)
    ensures TrimSplit(StartLine(n) + body + END_LINE) == [StartLine(n)] + TrimSplit(body) + [END_LINE]
    ensures EndsWithNewline(StartLine(n) + body + END_LINE)
  {
    hide Classify, HintOf, SplitAfter, Itoa, Atoi, TrimSpace, TrimmedOf, TrimRightSpace, TrimLeftSpace, TrimRightEol, HasPrefix, StartLine, HintText;
    hide Join;
    var start := StartLine(n);
    StartLineIsLine(n);
    EndLineIsLine();
    TrimSplitOneLine(start);
    TrimSplitOneLine(END_LINE);
    TrimSplitAppend(start, body);
    if body == "" {
      assert start + body == start;
    } else {
      EndsWithNewlineAppend(start, body);
    }
    TrimSplitAppend(start + body, END_LINE);
    EndsWithNewlineAppend(start + body, END_LINE);
  }

  /** A start line and a body followed at once by the end marker: the
      separator is expected and the end marker is reported in its place. */
  lemma UnseparatedFails(toks: seq<Token>, c: nat, n: int, body: string)
    requires MIN_INT64 <= n <= MAX_INT64 && IsBody(body)
    requires Spells(toks, c, [StartLine(n)] + TrimSplit(body) + [END_LINE])
    ensures DiffsFrom(toks, c) ==
            Failure(Unexpected(TextSeparatorType, EndReplaceType, END_LINE, toks[c + 1 + |TrimSplit(body)|].line))
  {
    hide Classify, HintOf, SplitAfter, Itoa, Atoi, TrimSpace, TrimmedOf, TrimRightSpace, TrimLeftSpace, TrimRightEol, HasPrefix, StartLine, HintText;
    hide Join, TrimSplit;
    var bl := TrimSplit(body);
    var end := c + 1 + |bl|;
    SpellsSplit(toks, c, [StartLine(n)] + bl, [END_LINE]);
    SpellsSplit(toks, c, [StartLine(n)], bl);
    StartParses(toks, c, n);
    EndLineIsLine();
    assert toks[end + 0] == toks[end] && [END_LINE][0] == END_LINE;
    TextRun(toks, c + 1, bl);
    DiffFromStarted(toks, c, n, c + 1);
    StartLineIsLine(n);
    assert toks[c + 0] == toks[c] && [StartLine(n)][0] == StartLine(n);
    DiffsFromStep(toks, c, DiffFrom(toks, c).0, DiffFrom(toks, c).1);
  }

  /** A block with no separator: Parse fails on the end marker, naming its
      line, and returns none of the blocks before it. */
  lemma MissingSeparator(ds: seq<Diff>, n: int, body: string)
    requires AllWellFormed(ds) && MIN_INT64 <= n <= MAX_INT64 && IsBody(body)
    ensures Diffs(Render(ds) + StartLine(n) + body + END_LINE) ==
            Failure(Unexpected(TextSeparatorType, EndReplaceType, END_LINE, |RenderLines(ds)| + 1 + |TrimSplit(body)|))
  {
    hide Classify, HintOf, SplitAfter, Itoa, Atoi, TrimSpace, TrimmedOf, TrimRightSpace, TrimLeftSpace, TrimRightEol, HasPrefix, StartLine, HintText;
    hide Join, RenderLines, Render, TrimSplit, Tokens, DiffsFrom;
    var block := StartLine(n) + body + END_LINE;
    var input := Render(ds) + block;
    assert Render(ds) + StartLine(n) + body + END_LINE == input;
    var toks := Tokens(input);
    RenderedLines(ds);
    UnseparatedLines(n, body);
    TokensOfPair(Render(ds), block);
    TokensSpellInput(input);
    BlocksParse(toks, 0, ds);
    UnseparatedFails(toks, |RenderLines(ds)|, n, body);
  }

  /** The hint must follow "line:" at once: a space there is no number. */
  lemma HintSpaceRejected()
    ensures HintOf(START_SEARCH_PREFIX + " line: 5\n") == Failure(BadHintNumber(START_SEARCH_PREFIX + " line: 5\n"))
  {
    hide TrimSpace, TrimmedOf, TrimRightSpace, TrimLeftSpace, Classify, DigitsValue;
    var suffix := " line: 5\n";
    assert CutPrefix(START_SEARCH_PREFIX + suffix, START_SEARCH_PREFIX).0 == suffix by {
      assert (START_SEARCH_PREFIX + suffix)[|START_SEARCH_PREFIX|..] == suffix;
    }
    assert TrimSpace(suffix) == "line: 5" by {
      assert suffix == " " + "line: 5" + "\n";
      TrimSpaceAround("line: 5");
    }
    assert CutPrefix("line: 5", "line:").0 == " 5" && CutPrefix("line: 5", "line:").1 by {
      assert "line: 5"[..5] == "line:" && "line: 5"[5..] == " 5";
    }
    assert Atoi(" 5") == None by {
      assert !IsDigit(" 5"[0]);
    }
  }

  /** A signed hint is accepted, as strconv.Atoi accepts it. */
  lemma HintSignAccepted()
    ensures HintOf(START_SEARCH_PREFIX + " line:+5\n") == Success(5)
  {
    hide TrimSpace, TrimmedOf, TrimRightSpace, TrimLeftSpace, Classify;
    var suffix := " line:+5\n";
    assert CutPrefix(START_SEARCH_PREFIX + suffix, START_SEARCH_PREFIX).0 == suffix by {
      assert (START_SEARCH_PREFIX + suffix)[|START_SEARCH_PREFIX|..] == suffix;
    }
    assert TrimSpace(suffix) == "line:+5" by {
      assert suffix == " " + "line:+5" + "\n";
      TrimSpaceAround("line:+5");
    }
    assert CutPrefix("line:+5", "line:").0 == "+5" && CutPrefix("line:+5", "line:").1 by {
      assert "line:+5"[..5] == "line:" && "line:+5"[5..] == "+5";
    }
    assert Atoi("+5") == Some(5) by {
      assert "+5"[1..] == "5" && AllDigits("5") && DigitsValue("5") == 5;
    }
  }

  /** A start marker without "line:" has no hint. */
  lemma HintMissing()
    ensures HintOf(START_SEARCH_PREFIX + "\n") == Failure(MissingHint(START_SEARCH_PREFIX + "\n"))
  {
    hide Classify;
    var text := START_SEARCH_PREFIX + "\n";
    assert text[|START_SEARCH_PREFIX|..] == "\n";
    assert TrimRightSpace("\n") == "";
  }
}
