# fuzzypatch in Dafny

A model of the Go package `fuzzypatch`. The package edits a text document
with diffs written in the block notation

    <<<<<<< SEARCH line:N
    ...search lines...
    =======
    ...replace lines...
    >>>>>>> REPLACE

It works in three steps:

- **Parse** (`parse.go`). The lexer classifies every line as a start marker,
  separator, end marker or text line, and appends one EOF token. A parser
  with one token of lookahead turns the tokens into `Diff` values (hint line,
  search text, replace text), or into an error.
- **Search** (`apply.go`). It finds the lines of the document that resemble a
  diff's search text. It starts at the hinted line and widens a radius one
  line at a time, trying the window above the hint before the window below
  it. It returns the byte range of the first window that is similar enough,
  as an `Edit`.
- **Apply** (`apply.go`). It sorts the edits by start, highest first. It
  then splices them into the document back to front, and rejects bad ranges
  and overlaps.

Files:

- `wrappers.dfy`: `Option` and `Result`.
- `gostrings.dfy`: module `GoStrings`, the behaviour of the Go `strings` and
  `strconv` functions the package calls, over byte strings (one `char` per
  byte).
- `fuzzypatch.dfy`: module `FuzzyPatch`, the `Diff` and `Edit` values, the
  line splitter `trimSplit` and the similarity score.
- `locator.dfy`: module `Locator`, `Search`. It is an imperative method
  (offset table in an array, radius loop) proved against the specification
  function `Locate`. Lemmas state what `Locate` chooses.
- `applier.dfy`: module `Applier`, `Apply`. The sort is in place on an
  `array<Edit>`. The splice loop is proved against `SpliceFrom`, which is
  related to `Build`, an independent left-to-right definition over the
  original text.
- `parser.dfy`: module `DiffParser`, the lexer and the parser. The parser is
  a class whose `Read` overwrites `current`. Its methods are proved against
  functions of the token stream.
- `difftext.dfy`: module `DiffText`. It writes `Diff` values in the block
  notation and proves that `Parse` reads them back. It also states how the
  corner cases of the notation end.

Corner cases of the code that the model reproduces:

- A missing end marker is not a parse error. `parseDiff` returns the zero
  `Diff` with no error, and the token read in the end marker's place is
  consumed. When that token is EOF, the next round of `Parse` reads past the
  end and fails on an `InvalidType` token (`DiffText.MissingEndAtEof`).
- When no two edits share a start, the result of `Apply` does not depend
  on the input order of the edits (`Applier.ApplyOrderIndependent`). With
  tied starts it can: two insertions at the same byte give different texts
  in the two orders the sort may leave them in
  (`Applier.TiedStartsOrderMatters`).
- Blank lines after the last block are not tolerated. `Parse` keeps looking
  for a start marker and fails on EOF (`DiffText.TrailingBlankLines`).
- A hint of the least int64 does not start the search at the first line.
  `diff.Line - 1` wraps round to the greatest int64, which clamps to the last
  line, so a search text of two or more lines is not found at all
  (`Locator.HintMinWraps`).
- Apply checks each edit's end against the current buffer, which earlier
  splices may have shortened. An edit that overlaps the one before can then
  be reported as an invalid range rather than as an overlap
  (`Applier.ShrunkBufferRangeError`, `Applier.OverlapReportedAsRange`).

## Model

| member | source | states |
|---|---|---|
| GoStrings.JoinAppend | apply.go:63 | Joining two lists of pieces is joining each and concatenating the results. |
| GoStrings.CutPrefix | parse.go:118-119 | Reports whether the prefix is present, and the text after it (the whole text when the prefix is absent). |
| GoStrings.TrimRightEol | parse.go:56 | Drops exactly the trailing run of CR and LF bytes. The result is a prefix and does not end in CR or LF. |
| GoStrings.TrimSpace | parse.go:111 | The text with its leading and trailing white space cut off: a slice of the text with only white space around it. It is empty exactly when the text is all white space, and otherwise it starts and ends with a byte that is not white space. |
| GoStrings.Atoi | parse.go:123 | A number is returned only when it is in the int64 range and the text starts with a digit or a sign. |
| GoStrings.AtoiItoa | parse.go:123 | Atoi reads back every int64 that Itoa writes. |
| GoStrings.Wrap64 | apply.go:53 | Go int arithmetic: the value is brought into the int64 range by a multiple of 2^64, and a value already in range is unchanged. |
| FuzzyPatch.SplitAfter | apply.go:134 | The pieces join back to the text. Every piece but the last ends in its only line feed, and the last piece has no line feed. |
| FuzzyPatch.TrimSplit | apply.go:131-139 | The lines join back to the input. No line is empty. Every line but the last ends in "\n" and holds no other "\n". The empty text has no lines. |
| FuzzyPatch.LineSplitUnique | apply.go:131-139 | A text has only one such line split, so trimSplit is its inverse of joining. |
| FuzzyPatch.TrimSplitAppend | apply.go:131-139 | Splitting a text that starts with whole lines gives those lines, then the rest's lines. |
| FuzzyPatch.TrimSplitOneLine | apply.go:131-139 | A single line without an inner line feed splits into itself. |
| FuzzyPatch.Similarity | apply.go:123-129 | The score is at most 1. It is 1 for two empty strings and whenever the distance is 0, and it is not negative when the distance is at most the longer length. |
| Locator.OffsetStep | apply.go:42-44 | Each offset-table entry is the previous one plus the length of the line in between. |
| Locator.WindowBytes | apply.go:63-67 | The bytes between the offsets of lines k and k+m are exactly lines k..k+m joined. |
| Locator.StartIndex | apply.go:53-54 | The hint becomes a 0-based line index inside the document: hint-1 for a hint from 1 to the line count, the first line for a hint below 1, the last line above. For the least int64, hint-1 wraps to the greatest int64, which clamps to the last line. |
| Locator.PrefixOffsets | apply.go:40-44 | Returns the offset table: entry j is the byte at which line j starts, for j up to the line count. |
| Locator.ExpandFrom | apply.go:56-90 | The radius loop succeeds exactly when some candidate in radius order is accepted, and returns the first such window. |
| Locator.CandidatesFrom | apply.go:56-90 | The window starts the radius loop tries, in order. At most two per radius, and nothing once the radius passes the line count. CandidatesWithin, CandidatesCover and CandidatesRanked state which windows they are and in what order. |
| Locator.FirstWindow | apply.go:64-83 | The first of the tried windows whose text is similar enough, if any. A chosen window lies in the document and meets the threshold. |
| Locator.ChosenWindow | apply.go:35-90 | The window Search settles on, if any. It needs a non-empty search text, and the window of that many lines fits in the document. |
| Locator.Search | apply.go:34-92 | Found exactly when Locate finds an edit, and the edit is Locate's. Otherwise it returns the zero Edit. |
| Locator.Locate | apply.go:34-92 | The edit Search reports, or none. An edit is found exactly when a window is chosen, and it lies within the document and carries the replace text. |
| Locator.LeftChosen | apply.go:59-71 | At a radius whose upper window fits and is accepted, that window is chosen. |
| Locator.RightChosen | apply.go:73-85 | When the upper window is out of range or rejected and the lower one fits and is accepted, the lower one is chosen. |
| Locator.NothingTried | apply.go:87-89 | At a radius where neither window fits, the search gives up. |
| Locator.AllRejected | apply.go:56-90 | A radius whose windows are all rejected leaves the choice to the next radius. |
| Locator.CandidatesWithin | apply.go:59-77 | Every window the loop tries lies inside the document and at least the current radius from the hint. |
| Locator.CandidatesCover | apply.go:56-90 | When the window at the hint fits, the loop tries every window of the document. |
| Locator.CandidatesRanked | apply.go:56-90 | Windows are tried in strictly increasing rank: the hint, then above before below, nearer before farther. |
| Locator.FirstAcceptedIsFirst | apply.go:64-78 | No candidate before the one chosen is accepted, and none at all when nothing is chosen. |
| Locator.WindowNearest | apply.go:56-90 | When the hint window fits, the choice is accepted, and every accepted window ranks no earlier than it. So the search fails only when no window is accepted. |
| Locator.GivesUpPastEnd | apply.go:56-89 | When the clamped hint plus the search line count runs past the last line, nothing is found, whatever lies elsewhere. |
| Locator.HintMinWraps | apply.go:53-89 | A hint of the least int64 clamps to the last line, while the hint one above it clamps to the first. A search text of two or more lines is then never found, whatever the document holds. |
| Locator.LocateEarlyExit | apply.go:35-50 | No edit is found for an empty document, an empty search text, or a search text with more lines than the document. |
| Locator.LocateSound | apply.go:63-83 | A found edit satisfies 0 <= start <= end <= length. It starts and ends on line boundaries, spans exactly the search text's line count, meets the threshold, and carries the replace text. |
| Locator.WindowSound | apply.go:63-69 | The bytes of an accepted window are whole lines, as many as asked, and similar enough. |
| Locator.WindowEdges | apply.go:65-67 | A window's start and end offsets sit at line boundaries of the document. |
| Locator.WindowLines | apply.go:63-67 | The bytes of a window of m whole lines split back into exactly those m lines. |
| Locator.LineBoundary | apply.go:41-44 | Every offset-table entry is the end of the text or follows a line feed. |
| Locator.WindowResplit | apply.go:63 | Joining consecutive lines of a line split and splitting again gives those lines back. |
| Locator.LineEnd | apply.go:41-44 | The line before each interior offset ends in a line feed. |
| Locator.ChosenNearest | apply.go:56-90 | When the hint window fits, Search succeeds exactly when some window is accepted, and it returns the first accepted one in radius order. |
| Locator.ExactAtHint | apply.go:56-69 | When the search text sits verbatim at the clamped hint, that window is returned at radius 0. |
| Locator.ThresholdMonotone | apply.go:64-78 | For any thresholds low <= high, whatever the higher one finds the lower one finds too, no later in radius order. |
| Applier.SortByStartDesc | apply.go:102 | The edits end sorted by start, highest first, as a permutation of the input. |
| Applier.SinkInto | apply.go:102 | One insertion step extends the sorted prefix by one edit, keeps the multiset of edits, and leaves the edits after it unchanged. |
| Applier.SwapDown | apply.go:102 | Exchanges two neighbouring edits and changes nothing else. |
| Applier.SpliceFrom | apply.go:104-119 | The splice loop from a buffer and the last start. A success is as long as the buffer plus each edit's text minus its range. It fails only while edits remain, and an overlap is reported only for a well-formed range. |
| Applier.Apply | apply.go:96-121 | No edits gives the source unchanged. Otherwise the edits are left sorted, as a permutation of the input, and the result is the splice loop's over that order. |
| Applier.ChainPairwise | apply.go:109-118 | The loop's checks pass exactly when every edit has 0 <= start <= end, the first ends within the text, and each ends at or before the previous one's start (touching allowed). |
| Applier.SpliceSucceedsIff | apply.go:104-119 | The splice loop succeeds exactly when the sorted edits form such a chain. |
| Applier.ChainOrdered | apply.go:107-118 | A valid chain, read right to left, is a list of disjoint ascending ranges of the original text. |
| Applier.BuildSnoc | apply.go:116-117 | Applying one more edit past all the others is the earlier result on the text before it, then its text, then the original tail. |
| Applier.SpliceBuild | apply.go:104-119 | Splicing back to front equals replacing every range of the original text at once, left to right. |
| Applier.ApplyReplacesRanges | apply.go:96-121 | On success the result is the source with each [Start,End) replaced by its Text, all offsets taken in the original source. |
| Applier.FailsAtFirstBadEdit | apply.go:107-114 | A failure names the first edit that breaks the chain, and all edits before it were valid. It is a range error exactly when that edit's start is negative, its end is before its start, or its end lies past the buffer as the earlier splices left it. Otherwise it is an overlap error. |
| Applier.ShrunkBufferRangeError | apply.go:107-118 | When a splice shortens the buffer, a later edit that ends past the shortened buffer fails with a range error, even if it ends within the original text. |
| Applier.OverlapReportedAsRange | apply.go:109-113 | Deleting [3,10) and then meeting [0,5) in a 10-byte text reports [0,5) as an invalid range, not as an overlap. |
| Applier.SortedUnique | apply.go:102 | With distinct starts, there is only one sorted order of a set of edits. |
| Applier.ApplyOrderIndependent | apply.go:96-121 | With distinct starts, the result does not depend on the input order of the edits. |
| Applier.TiedStartsOrderMatters | apply.go:102-118 | Two insertions at one byte, both sorted orders of the same edits, splice to different texts. |
| DiffParser.Classify | parse.go:56-73 | A line is never EOF or InvalidType. It is a start marker exactly when it begins with the start prefix. "=======" and ">>>>>>> REPLACE" are recognised with any CR/LF terminator. It is text exactly when none of the three applies. |
| DiffParser.ClassifyStart | parse.go:58-61 | A line that begins with the start prefix is a start marker, whatever follows. |
| DiffParser.ClassifySeparator | parse.go:62-65 | "=======" followed by any CR/LF terminator is a separator. |
| DiffParser.ClassifyEnd | parse.go:66-69 | ">>>>>>> REPLACE" followed by any CR/LF terminator is an end marker. |
| DiffParser.ClassifyBareEol | parse.go:70-73 | A line holding only a CR/LF terminator is text. |
| DiffParser.TrimEolSuffix | parse.go:56 | Trimming trailing CR/LF removes exactly a CR/LF suffix added to a text that does not end in one. |
| DiffParser.Tokens | parse.go:52-78 | One token per line, then a single EOF token with line 0 and no text. |
| DiffParser.Tokenize | parse.go:52-78 | The loop yields exactly those tokens: each line's kind, its 0-based number and its raw text, then EOF. |
| DiffParser.TokensSpellInput | parse.go:52-78 | The lexer loses nothing. The line tokens' texts spell the input, each has a line kind, and the numbers run 0, 1, 2, and so on. |
| DiffParser.SkipBlankFrom | parse.go:111-113 | Finds the first token at or after the cursor that is not a blank text line. Every token skipped is blank text, the token it stops at is not, and it never moves backwards nor past the end of the stream. |
| DiffParser.StartSearchFrom | parse.go:110-128 | parseStartSearch from a cursor: the hint or the error, and the cursor after. It always reads at least one token. |
| DiffParser.StartSearchReads | parse.go:110-128 | Every token parseStartSearch skips is a blank text line, and it then reads exactly one token more. It succeeds only when that token is a start marker, and then returns that marker's hint. |
| DiffParser.ExpectToken | parse.go:97-108 | Succeeds exactly on the expected kind. Otherwise it fails naming the expected kind and the actual kind, text and line. |
| DiffParser.HintOf | parse.go:118-127 | A parsed hint fits in an int64. A failure is one of the two hint errors, MissingHint or BadHintNumber, carrying the marker's text (HintMissing and HintSpaceRejected show which is which). |
| DiffParser.TextRunFrom | parse.go:137-147 | A run of text tokens from a cursor. Every token it passes is text, and it stops at the first token that is not, never past the end of the stream. TextRunVerbatim gives its text. |
| DiffParser.TextRunVerbatim | parse.go:137-147 | A body is the texts of its consecutive text tokens laid end to end, terminators kept. |
| DiffParser.DiffFrom | parse.go:130-152 | parseDiff from a cursor. It always advances. A parsed block takes at least three tokens (start marker, separator, and the end marker or the token in its place), and it leaves the cursor at most one past the end of the stream. |
| DiffParser.BodiesFrom | parse.go:137-151 | The rest of parseDiff after the start marker. It always advances. A success takes at least two tokens (the separator and the end marker's place), and it leaves the cursor at most one past the end of the stream. |
| DiffParser.DiffsFrom | parse.go:159-167 | Parse's loop from a cursor. On success the cursor started inside the stream, and every block parsed took at least three tokens. |
| DiffParser.Diffs | parse.go:154-168 | What Parse returns for an input: on success, at most one block per three lines of the input. ParseRender and the corner-case lemmas say which blocks. |
| DiffParser.Parser.constructor | parse.go:157 | A new parser over the stream has not read yet, and its current token is Go's zero token. |
| DiffParser.Parser.Read | parse.go:86-95 | Returns the old current token and pulls the next one. Past the end of the stream the current token is InvalidType. |
| DiffParser.Parser.Expect | parse.go:97-108 | Reads once and returns the expect result for the token read. |
| DiffParser.Parser.ParseStartSearch | parse.go:110-128 | Skips blank text lines, expects a start marker and parses its hint, leaving the cursor after the marker. |
| DiffParser.Parser.ReadTextRun | parse.go:137-147 | Accumulates the texts of the text tokens from the cursor and stops at the first other token. |
| DiffParser.Parser.ParseDiff | parse.go:130-152 | Returns the Diff or error of one block, and advances the cursor past what it read. |
| DiffParser.Parser.ParseBodies | parse.go:137-151 | Reads the search body, the separator, the replace body and the end marker. A missing separator is an error. A missing end marker gives the zero Diff. |
| DiffParser.Parse | parse.go:154-168 | Returns exactly the parse of the input's tokens: the blocks until EOF, or the first error. |
| DiffText.HintReadsBack | parse.go:118-127 | The hint written in a start line is the hint parsed from it. |
| DiffText.ParseRender | parse.go:154-168 | Parse reads every list of well-formed blocks back exactly. Together with Tokenize and Parse, this is the round trip of the notation. |
| DiffText.ParseEmpty | parse.go:154-168 | Empty input parses to no diffs and no error. |
| DiffText.TrailingBlankLines | parse.go:110-114 | Blank lines after the last block, or input of nothing but white space, fail with "expected start marker, got EOF". |
| DiffText.MissingEndThenSeparator | parse.go:148-150 | When a block lacks its end marker, the next token is consumed, the zero Diff is appended, and parsing continues. |
| DiffText.MissingEndAtEof | parse.go:148-150 | A last block without an end marker consumes EOF, and Parse then fails on an InvalidType token. |
| DiffText.MissingSeparator | parse.go:141-143 | A block without a separator fails on the end marker, naming its line, and no earlier block is returned. |
| DiffText.HintSpaceRejected | parse.go:119-126 | "line: 5" is rejected: Atoi refuses the space. |
| DiffText.HintSignAccepted | parse.go:123-127 | "line:+5" is accepted, as Atoi accepts a sign. |
| DiffText.HintMissing | parse.go:119-122 | A start marker without "line:" has no hint. |

## Left out

- The edit distance (`levenshtein.ComputeDistance`) is foreign code. It is a parameter `dist` of `Search` and `Similarity`. `Search` assumes nothing about it. `Locator.ExactAtHint` requires `dist(s, s) == 0`, and the lower bound of `FuzzyPatch.Similarity` requires a distance no greater than the longer length. Levenshtein distance has both properties.
- `float64` similarity and threshold are exact `real` numbers. Rounding is not modelled.
- The Go iterator machinery (`iter.Seq`, `iter.Pull`, `stop`) is replaced by a token sequence and a cursor. The lexer runs to the end before parsing starts. Reading past the end still yields `InvalidType`.
- `sort.Slice` is modelled by an insertion sort with the same contract: sorted by start, highest first, as a permutation. The order it leaves edits with equal starts in is not claimed about the Go sort.
- Error messages are datatypes (`ParseError`, `ApplyError`) carrying the kinds, text, line and range, not formatted strings. The `%w` wrapping of the Atoi error is not kept.
- `strings.TrimSpace` removes ASCII white space only. Unicode spaces are not modelled.
- `strconv.Atoi` is modelled for a 64-bit `int`.
- On an error, `Apply` in Go also returns `""`, and `Parse` returns a nil list. The model returns only the error.
- `Apply`'s byte buffer `data` is a `string` value that the loop reassigns. The aliasing of `append` over `data[:Start]` is not modelled.
- `tokenTypeString` is not modelled. Errors carry the token kinds themselves, not their names.
- Go's 64-bit `int` is an unbounded integer, except at `diff.Line - 1`, where `GoStrings.Wrap64` applies the wrap-around. The other sums are lengths and offsets of strings in memory and cannot overflow.

