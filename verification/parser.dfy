/** parse.go: the lexer and parser of the diff-block notation
      <<<<<<< SEARCH line:N
      ...search lines...
      =======
      ...replace lines...
      >>>>>>> REPLACE
    The token stream that the Go code pulls from an iterator is a sequence
    here, and the parser's position in it is the count `pos` of tokens
    pulled so far. Reading past the end yields an InvalidType token. */
module DiffParser {
  import opened Wrappers
  import opened GoStrings
  import opened FuzzyPatch

  datatype TokenType =
    | StartSearchType    // a line beginning with START_SEARCH_PREFIX
    | TextSeparatorType  // "=======" up to trailing CR/LF
    | EndReplaceType     // ">>>>>>> REPLACE" up to trailing CR/LF
    | TextType           // any other line, blank lines included
    | InvalidType        // what reading past the end of the stream yields
    | EOF                // the single token after the last line

  datatype Token = Token(typ: TokenType, line: int, text: string)

  /** Go's zero `token`: the first constant of the enumeration, line 0, no text. */
  const ZERO_TOKEN := Token(StartSearchType, 0, "")
  const START_SEARCH_PREFIX := "<<<<<<< SEARCH"
  const TEXT_SEPARATOR := "======="
  const END_REPLACE := ">>>>>>> REPLACE"

  /** Why parsing failed: `expect` saw the wrong kind of token, or the start
      marker's hint lacks "line:" or its number does not parse. */
  datatype ParseError =
    | Unexpected(expected: TokenType, actual: TokenType, text: string, line: int)
    | MissingHint(text: string)
    | BadHintNumber(text: string)

  // ----- Lexer -----

  /** The kind of one raw line (terminator included), in the priority
      order of parse.go `tokenize`. */
  function Classify(line: string): (r: TokenType)
    ensures r != EOF && r != InvalidType
    ensures r == StartSearchType <==> HasPrefix(line, START_SEARCH_PREFIX)
    ensures TrimRightEol(line) == TEXT_SEPARATOR ==> r == TextSeparatorType
    ensures TrimRightEol(line) == END_REPLACE ==> r == EndReplaceType
    ensures r == TextType <==>
              !HasPrefix(line, START_SEARCH_PREFIX) &&
              TrimRightEol(line) != TEXT_SEPARATOR && TrimRightEol(line) != END_REPLACE
  {
    if HasPrefix(line, START_SEARCH_PREFIX) then
      // a start line begins with '<', so its trimmed text is neither marker
      assert line[0] == '<' && TrimRightEol(line)[..1] == line[..1];
      StartSearchType
    else if TrimRightEol(line) == TEXT_SEPARATOR then TextSeparatorType
    else if TrimRightEol(line) == END_REPLACE then EndReplaceType
    else TextType
  }

  /** A start marker is recognised by its prefix alone, whatever follows. */
  lemma ClassifyStart(t: string)
    ensures Classify(START_SEARCH_PREFIX + t) == StartSearchType
  {
    assert (START_SEARCH_PREFIX + t)[..|START_SEARCH_PREFIX|] == START_SEARCH_PREFIX;
  }

  /** The separator is recognised whatever CR/LF terminator follows it. */
  lemma ClassifySeparator(t: string)
    requires forall k :: 0 <= k < |t| ==> IsEol(t[k])
    ensures Classify(TEXT_SEPARATOR + t) == TextSeparatorType
  {
    var line := TEXT_SEPARATOR + t;
    assert line[0] == '=' != START_SEARCH_PREFIX[0];
    assert !HasPrefix(line, START_SEARCH_PREFIX);
    TrimEolSuffix(TEXT_SEPARATOR, t);
  }

  /** The end marker is recognised whatever CR/LF terminator follows it. */
  lemma ClassifyEnd(t: string)
    requires forall k :: 0 <= k < |t| ==> IsEol(t[k])
    ensures Classify(END_REPLACE + t) == EndReplaceType
  {
    var line := END_REPLACE + t;
    assert line[0] == '>' != START_SEARCH_PREFIX[0];
    assert !HasPrefix(line, START_SEARCH_PREFIX);
    TrimEolSuffix(END_REPLACE, t);
    assert |END_REPLACE| != |TEXT_SEPARATOR|;
  }

  /** A line holding nothing but its terminator is a text line. */
  lemma ClassifyBareEol(t: string)
    requires t != ""
    requires forall k :: 0 <= k < |t| ==> IsEol(t[k])
    ensures Classify(t) == TextType
  {
    assert IsEol(t[0]) && !IsEol(START_SEARCH_PREFIX[0]);
    assert !HasPrefix(t, START_SEARCH_PREFIX);
    TrimEolSuffix("", t);
    assert "" + t == t;
  }

  /** Trailing CR/LF after a text that does not end in one are all trimmed. */
  lemma {:induction false} TrimEolSuffix(s: string, t: string)
    requires s == "" || !IsEol(s[|s| - 1])
    requires forall k :: 0 <= k < |t| ==> IsEol(t[k])
    ensures TrimRightEol(s + t) == s
    decreases |t|
  {
    if t == "" {
      assert s + t == s;
    } else {
      var t' := t[..|t| - 1];
      assert (s + t)[..|s + t| - 1] == s + t';
      TrimEolSuffix(s, t');
    }
  }

  /** The tokens of `input`: one per line of `strings.Lines(input)`, each
      with its kind, its 0-based line number and its raw text, then EOF. */
  function Tokens(input: string): (toks: seq<Token>)
    ensures |toks| == |TrimSplit(input)| + 1
    ensures toks[|toks| - 1] == Token(EOF, 0, "")
  {
    var lines := TrimSplit(input);
    seq(|lines|, i requires 0 <= i < |lines| => Token(Classify(lines[i]), i, lines[i])) + [Token(EOF, 0, "")]
  }

  /** parse.go `tokenize`, run to the end of its input. */
  method Tokenize(input: string) returns (toks: seq<Token>)
    ensures toks == Tokens(input)
  {
    hide TrimSplit, SplitAfter, TrimRightEol, HasPrefix;
    var lines := TrimSplit(input);
    toks := [];
    var lineNo := 0;
    while lineNo < |lines|
      invariant 0 <= lineNo <= |lines|
      invariant |toks| == lineNo
      invariant forall i :: 0 <= i < lineNo ==> toks[i] == Token(Classify(lines[i]), i, lines[i])
    {
      var line := lines[lineNo];
      var trim := TrimRightEol(line);
      if HasPrefix(line, START_SEARCH_PREFIX) {
        toks := toks + [Token(StartSearchType, lineNo, line)];
      } else if trim == TEXT_SEPARATOR {
        toks := toks + [Token(TextSeparatorType, lineNo, line)];
      } else if trim == END_REPLACE {
        toks := toks + [Token(EndReplaceType, lineNo, line)];
      } else {
        toks := toks + [Token(TextType, lineNo, line)];
      }
      lineNo := lineNo + 1;
    }
    toks := toks + [Token(EOF, 0, "")];
  }

  /** The texts of tokens `[from, to)` laid end to end. */
  function Texts(toks: seq<Token>, from: nat, to: nat): string
    requires from <= to <= |toks|
    decreases |toks| - from
  {
    if from == to then "" else toks[from].text + Texts(toks, from + 1, to)
  }

  /** The lexer loses nothing: the line tokens' texts spell the input, and
      every line token has a line kind and its own line number. */
  lemma TokensSpellInput(input: string)
    ensures Texts(Tokens(input), 0, |Tokens(input)| - 1) == input
    ensures forall i :: 0 <= i < |Tokens(input)| - 1 ==>
              Tokens(input)[i].typ != EOF && Tokens(input)[i].typ != InvalidType && Tokens(input)[i].line == i
  {
    hide SplitAfter, HasPrefix, TrimRightEol;
    var toks := Tokens(input);
    var lines := TrimSplit(input);
    TextsOfLines(toks, lines, 0);
  }

  lemma {:induction false} TextsOfLines(toks: seq<Token>, lines: seq<string>, from: nat)
    requires |toks| == |lines| + 1 && from <= |lines|
    requires forall i :: 0 <= i < |lines| ==> toks[i].text == lines[i]
    ensures Texts(toks, from, |lines|) == Join(lines[from..])
    decreases |lines| - from
  {
    if from < |lines| {
      TextsOfLines(toks, lines, from + 1);
      assert lines[from..][1..] == lines[from + 1..];
    }
  }

  // ----- The parser's behaviour, as functions of the token stream -----

  /** The token at index `c` of the stream: InvalidType past the end, as
      the parser's `read` produces once `next` reports the stream exhausted. */
  function TokenAt(toks: seq<Token>, c: nat): Token
  {
    if c < |toks| then toks[c] else Token(InvalidType, 0, "")
  }

  predicate IsBlank(t: Token)
  {
    t.typ == TextType && TrimSpace(t.text) == ""
  }

  /** Index of the first token at or after `c` that is not a blank text line. */
  function SkipBlankFrom(toks: seq<Token>, c: nat): (r: nat)
    ensures c <= r && (c <= |toks| ==> r <= |toks|) && (c < r ==> r <= |toks|)
    ensures forall j :: c <= j < r ==> IsBlank(toks[j])
    ensures r < |toks| ==> !IsBlank(toks[r])
    decreases |toks| - c
  {
    hide IsBlank;
    if c < |toks| && IsBlank(toks[c]) then SkipBlankFrom(toks, c + 1) else c
  }

  /** `expect(typ)` on current token `tok`. */
  function ExpectToken(tok: Token, typ: TokenType): (r: Result<Token, ParseError>)
    ensures r.Success? <==> tok.typ == typ
    ensures r.Success? ==> r.value == tok
    ensures r.Failure? ==> r.error == Unexpected(typ, tok.typ, tok.text, tok.line)
  {
    if tok.typ != typ then Failure(Unexpected(typ, tok.typ, tok.text, tok.line)) else Success(tok)
  }

  /** The line hint of a start-marker line: after the prefix and white
      space, "line:" and then a number `strconv.Atoi` accepts. */
  function HintOf(text: string): (r: Result<int, ParseError>)
    ensures r.Success? ==> MIN_INT64 <= r.value <= MAX_INT64
    ensures r.Failure? ==> r.error == MissingHint(text) || r.error == BadHintNumber(text)
  {
    var suffix := CutPrefix(text, START_SEARCH_PREFIX).0;
    var (lineStr, ok) := CutPrefix(TrimSpace(suffix), "line:");
    if !ok then Failure(MissingHint(text))
    else match Atoi(lineStr)
      case None => Failure(BadHintNumber(text))
      case Some(n) => Success(n)
  }

  /** `parseStartSearch` from cursor `c`: the hint or error, and the cursor after. */
  function StartSearchFrom(toks: seq<Token>, c: nat): (r: (Result<int, ParseError>, nat))
    ensures c < r.1
  {
    var s := SkipBlankFrom(toks, c);
    match ExpectToken(TokenAt(toks, s), StartSearchType)
    case Failure(e) => (Failure(e), s + 1)
    case Success(tok) => (HintOf(tok.text), s + 1)
  }

  /** `parseStartSearch` skips only blank text lines and then reads one
      token more; it succeeds only when that token is a start marker, and
      then with that marker's hint. */
  lemma StartSearchReads(toks: seq<Token>, c: nat)
    ensures var r := StartSearchFrom(toks, c);
            (c < r.1 - 1 ==> r.1 - 1 <= |toks|) &&
            (forall j :: c <= j < r.1 - 1 ==> IsBlank(toks[j])) &&
            (r.0.Success? ==> TokenAt(toks, r.1 - 1).typ == StartSearchType &&
                              r.0 == HintOf(TokenAt(toks, r.1 - 1).text))
  {
    hide SkipBlankFrom, IsBlank, HintOf;
    var s := SkipBlankFrom(toks, c);
    assert StartSearchFrom(toks, c).1 == s + 1;
  }

  /** The run of text tokens from `c`: their texts laid end to end, and
      the index of the first token that is not text. */
  function TextRunFrom(toks: seq<Token>, c: nat): (r: (string, nat))
    ensures c <= r.1 && (c <= |toks| ==> r.1 <= |toks|) && (c < r.1 ==> r.1 <= |toks|)
    ensures forall j :: c <= j < r.1 ==> toks[j].typ == TextType
    ensures TokenAt(toks, r.1).typ != TextType
    decreases |toks| - c
  {
    if c < |toks| && toks[c].typ == TextType then
      var (body, next) := TextRunFrom(toks, c + 1);
      (toks[c].text + body, next)
    else ("", c)
  }

  /** One step of `TextRunFrom`, in terms of the token at the cursor. */
  lemma TextRunAt(toks: seq<Token>, c: nat)
    ensures TokenAt(toks, c).typ == TextType ==>
              c < |toks| && TextRunFrom(toks, c).0 == TokenAt(toks, c).text + TextRunFrom(toks, c + 1).0 &&
              TextRunFrom(toks, c).1 == TextRunFrom(toks, c + 1).1
    ensures TokenAt(toks, c).typ != TextType ==> TextRunFrom(toks, c).0 == "" && TextRunFrom(toks, c).1 == c
  {
  }

  /** A run of text tokens is their texts verbatim, terminators kept. */
  lemma {:induction false} TextRunVerbatim(toks: seq<Token>, c: nat)
    requires c <= |toks|
    ensures TextRunFrom(toks, c).0 == Texts(toks, c, TextRunFrom(toks, c).1)
    decreases |toks| - c
  {
    if c < |toks| && toks[c].typ == TextType {
      TextRunVerbatim(toks, c + 1);
    }
  }

  /** The zero Diff parseDiff returns when the end marker is missing. */
  const ZERO_DIFF := Diff(0, "", "")

  /** `parseDiff` from cursor `c`: the Diff or error, and the cursor after. */
  function DiffFrom(toks: seq<Token>, c: nat): (r: (Result<Diff, ParseError>, nat))
    ensures c < r.1
    ensures r.0.Success? ==> c + 3 <= r.1 <= |toks| + 1
  {
    var start := StartSearchFrom(toks, c);
    if start.0.Failure? then (Failure(start.0.error), start.1)
    else BodiesFrom(toks, start.0.value, start.1)
  }

  lemma DiffFromStarted(toks: seq<Token>, c0: nat, line: int, c: nat)
    requires StartSearchFrom(toks, c0).0 == Success(line) && StartSearchFrom(toks, c0).1 == c
    ensures DiffFrom(toks, c0) == BodiesFrom(toks, line, c)
  {
  }

  lemma DiffFromNotStarted(toks: seq<Token>, c0: nat, e: ParseError, c: nat)
    requires StartSearchFrom(toks, c0).0 == Failure(e) && StartSearchFrom(toks, c0).1 == c
    ensures DiffFrom(toks, c0).0 == Failure(e) && DiffFrom(toks, c0).1 == c
  {
  }

  /** The rest of `parseDiff` once the start marker with hint `line` is
      read: search body, separator, replace body, end marker. A missing
      separator is an error; a missing end marker yields the zero Diff. */
  function BodiesFrom(toks: seq<Token>, line: int, c: nat): (r: (Result<Diff, ParseError>, nat))
    ensures c < r.1
    ensures r.0.Success? ==> c + 2 <= r.1 <= |toks| + 1
  {
    var search := TextRunFrom(toks, c);
    var sep := TokenAt(toks, search.1);
    if sep.typ != TextSeparatorType then
      (Failure(Unexpected(TextSeparatorType, sep.typ, sep.text, sep.line)), search.1 + 1)
    else
      var replace := TextRunFrom(toks, search.1 + 1);
      var end := TokenAt(toks, replace.1);
      if end.typ != EndReplaceType then (Success(ZERO_DIFF), replace.1 + 1)
      else (Success(Diff(line, search.0, replace.0)), replace.1 + 1)
  }

  /** `diffs` followed by what the rest of the parse returns. */
  function Prepend(diffs: seq<Diff>, rest: Result<seq<Diff>, ParseError>): Result<seq<Diff>, ParseError>
  {
    match rest
    case Failure(e) => Failure(e)
    case Success(ds) => Success(diffs + ds)
  }

  /** `Parse`'s loop from cursor `c`: blocks until the current token is EOF. */
  function DiffsFrom(toks: seq<Token>, c: nat): (r: Result<seq<Diff>, ParseError>)
    ensures r.Success? ==> c + 3 * |r.value| < |toks|
    decreases |toks| + 1 - c
  {
    if TokenAt(toks, c).typ == EOF then Success([])
    else
      var step := DiffFrom(toks, c);
      if step.0.Failure? then Failure(step.0.error)
      else Prepend([step.0.value], DiffsFrom(toks, step.1))
  }

  /** At EOF the loop stops with nothing more. */
  lemma DiffsFromEof(toks: seq<Token>, c: nat)
    requires TokenAt(toks, c).typ == EOF
    ensures DiffsFrom(toks, c) == Success([])
  {
  }

  /** One round of `Parse`'s loop: a failed block ends the parse with its
      error; a parsed block is followed by the rest. */
  lemma DiffsFromStep(toks: seq<Token>, c: nat, d: Result<Diff, ParseError>, next: nat)
    requires TokenAt(toks, c).typ != EOF
    requires DiffFrom(toks, c).0 == d && DiffFrom(toks, c).1 == next
    ensures d.Failure? ==> DiffsFrom(toks, c) == Failure(d.error)
    ensures d.Success? ==> DiffsFrom(toks, c) == Prepend([d.value], DiffsFrom(toks, next))
  {
  }

  /** What `Parse(input)` returns. */
  function Diffs(input: string): (r: Result<seq<Diff>, ParseError>)
    ensures r.Success? ==> 3 * |r.value| <= |TrimSplit(input)|
  {
    DiffsFrom(Tokens(input), 0)
  }

  lemma PrependNothing(rest: Result<seq<Diff>, ParseError>)
    ensures Prepend([], rest) == rest
  {
    if rest.Success? {
      assert [] + rest.value == rest.value;
    }
  }

  lemma PrependAppend(diffs: seq<Diff>, d: Diff, rest: Result<seq<Diff>, ParseError>)
    ensures Prepend(diffs, Prepend([d], rest)) == Prepend(diffs + [d], rest)
  {
    if rest.Success? {
      assert diffs + ([d] + rest.value) == diffs + [d] + rest.value;
    }
  }

  // ----- The parser object -----

  /** parse.go `parser`: the current token and the stream it pulls from. */
  class Parser {
    /** The tokens `next` hands out, in order. */
    const toks: seq<Token>
    /** How many times `next` has been called. */
    var pos: nat
    var current: Token

    /** After the first read, `current` is the token at cursor `pos - 1`. */
    predicate Valid()
      reads this
    {
      pos >= 1 && current == TokenAt(toks, pos - 1)
    }

    /** A parser over `toks` that has not read yet: `current` is the zero token. */
    constructor(toks: seq<Token>)
      ensures this.toks == toks && pos == 0 && current == ZERO_TOKEN
    {
      this.toks := toks;
      pos := 0;
      current := ZERO_TOKEN;
    }

    /** parse.go `read`: returns the current token and pulls the next one. */
    method Read() returns (tok: Token)
      modifies this
      ensures tok == old(current)
      ensures pos == old(pos) + 1 && current == TokenAt(toks, old(pos))
      ensures Valid()
    {
      tok := current;
      if pos < |toks| {
        current := toks[pos];
      } else {
        current := Token(InvalidType, 0, "");
      }
      pos := pos + 1;
    }

    /** parse.go `expect`: reads, and fails unless the token read has kind `typ`. */
    method Expect(typ: TokenType) returns (r: Result<Token, ParseError>)
      modifies this
      ensures r == ExpectToken(old(current), typ)
      ensures pos == old(pos) + 1 && Valid()
    {
      var tok := Read();
      if tok.typ != typ {
        return Failure(Unexpected(typ, tok.typ, tok.text, tok.line));
      }
      return Success(tok);
    }

    /** parse.go `parseStartSearch`. */
    method ParseStartSearch() returns (r: Result<int, ParseError>)
      requires Valid()
      modifies this
      ensures Valid()
      ensures r == StartSearchFrom(toks, old(pos) - 1).0 && pos - 1 == StartSearchFrom(toks, old(pos) - 1).1
    {
      hide HintOf, TrimSpace, TrimmedOf, CutPrefix, Atoi;
      ghost var c := pos - 1;
      while current.typ == TextType && TrimSpace(current.text) == ""
        invariant Valid() && c <= pos - 1 <= SkipBlankFrom(toks, c)
        invariant SkipBlankFrom(toks, pos - 1) == SkipBlankFrom(toks, c)
        decreases |toks| + 1 - pos
      {
        var _ := Read();
      }
      assert pos - 1 == SkipBlankFrom(toks, c);
      var tok := Expect(StartSearchType);
      if tok.Failure? {
        return Failure(tok.error);
      }
      return HintOf(tok.value.text);
    }

    /** The `for p.current.Type == textType` loops of `parseDiff`. */
    method ReadTextRun() returns (body: string)
      requires Valid()
      modifies this
      ensures Valid()
      ensures body == TextRunFrom(toks, old(pos) - 1).0 && pos - 1 == TextRunFrom(toks, old(pos) - 1).1
    {
      hide TextRunFrom;
      ghost var c := pos - 1;
      body := "";
      assert body + TextRunFrom(toks, c).0 == TextRunFrom(toks, c).0;
      while current.typ == TextType
        invariant Valid() && c <= pos - 1
        invariant TextRunFrom(toks, c).0 == body + TextRunFrom(toks, pos - 1).0
        invariant TextRunFrom(toks, c).1 == TextRunFrom(toks, pos - 1).1
        decreases |toks| + 1 - pos
      {
        TextRunAt(toks, pos - 1);
        ghost var rest := TextRunFrom(toks, pos).0;
        assert body + (current.text + rest) == (body + current.text) + rest;
        body := body + current.text;
        var _ := Read();
      }
      TextRunAt(toks, pos - 1);
      assert body + TextRunFrom(toks, pos - 1).0 == body;
    }

    /** parse.go `parseDiff`: the start marker, then the two bodies. */
    method ParseDiff() returns (r: Result<Diff, ParseError>)
      requires Valid()
      modifies this
      ensures Valid()
      ensures r == DiffFrom(toks, old(pos) - 1).0 && pos - 1 == DiffFrom(toks, old(pos) - 1).1
    {
      // Neither the hint's syntax nor blank-line detection matters here.
      hide HintOf, IsBlank;
      ghost var c0 := pos - 1;
      var line := ParseStartSearch();
      if line.Failure? {
        DiffFromNotStarted(toks, c0, line.error, pos - 1);
        return Failure(line.error);
      }
      DiffFromStarted(toks, c0, line.value, pos - 1);
      r := ParseBodies(line.value);
    }

    /** The part of `parseDiff` after the start marker: search body,
        separator, replace body and end marker. */
    method ParseBodies(line: int) returns (r: Result<Diff, ParseError>)
      requires Valid()
      modifies this
      ensures Valid()
      ensures r == BodiesFrom(toks, line, old(pos) - 1).0 && pos - 1 == BodiesFrom(toks, line, old(pos) - 1).1
    {
      ghost var c := pos - 1;
      ghost var spec := BodiesFrom(toks, line, c);
      var search := ReadTextRun();
      ghost var c2 := pos - 1;
      assert TextRunFrom(toks, c).1 == c2;
      assert current == TokenAt(toks, c2);
      var sep := Expect(TextSeparatorType);
      assert sep == ExpectToken(TokenAt(toks, c2), TextSeparatorType);
      if sep.Failure? {
        assert spec.0 == Failure(sep.error) && spec.1 == pos - 1;
        return Failure(sep.error);
      }
      var replace := ReadTextRun();
      var end := Expect(EndReplaceType);
      if end.Failure? {
        assert spec.0 == Success(ZERO_DIFF) && spec.1 == pos - 1;
        return Success(ZERO_DIFF);
      }
      assert spec.0 == Success(Diff(line, search, replace)) && spec.1 == pos - 1;
      return Success(Diff(line, search, replace));
    }
  }

  /** parse.go `Parse`. */
  method Parse(input: string) returns (r: Result<seq<Diff>, ParseError>)
    ensures r == Diffs(input)
  {
    // One round of the loop is ParseDiff's business; here only its result counts.
    hide HintOf, IsBlank, DiffFrom, StartSearchFrom, BodiesFrom, TextRunFrom, SkipBlankFrom, Tokens, DiffsFrom;
    hide Classify, TrimSplit, SplitAfter, Join, TrimSpace, TrimmedOf, TrimRightEol, HasPrefix, CutPrefix, Atoi, ExpectToken;
    var toks := Tokenize(input);
    var p := new Parser(toks);
    var _ := p.Read();
    var diffs := [];
    ghost var spec := DiffsFrom(toks, 0);
    assert spec == Diffs(input);
    PrependNothing(spec);
    while p.current.typ != EOF
      invariant p.Valid() && p.toks == toks && p.pos - 1 <= |toks| + 1
      invariant spec == Prepend(diffs, DiffsFrom(toks, p.pos - 1))
      decreases |toks| + 1 - (p.pos - 1)
    {
      ghost var c := p.pos - 1;
      var d := p.ParseDiff();
      DiffsFromStep(toks, c, d, p.pos - 1);
      if d.Failure? {
        return Failure(d.error);
      }
      ghost var rest := DiffsFrom(toks, p.pos - 1);
      assert DiffsFrom(toks, c) == Prepend([d.value], rest);
      PrependAppend(diffs, d.value, rest);
      assert spec == Prepend(diffs + [d.value], rest);
      diffs := diffs + [d.value];
    }
    DiffsFromEof(toks, p.pos - 1);
    assert diffs + [] == diffs;
    return Success(diffs);
  }
}
