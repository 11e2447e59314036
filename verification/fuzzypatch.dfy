/** The value types of the fuzzypatch package and the two pure helpers of
    apply.go: the line splitter `trimSplit` and the similarity score. */
module FuzzyPatch {
  import opened GoStrings

  /** One requested change: `search` is expected to start near the
      1-based line `line` of the document and is to be replaced by `replace`. */
  datatype Diff = Diff(line: int, search: string, replace: string)

  /** A located change: the bytes `[start, end)` of the document are to be
      replaced by `text`. */
  datatype Edit = Edit(start: int, end: int, text: string)

  /** A piece that holds no line feed except, possibly, as its last byte. */
  predicate NoInnerNewline(piece: string)
  {
    forall k :: 0 <= k < |piece| - 1 ==> piece[k] != '\n'
  }

  predicate EndsWithNewline(piece: string)
  {
    piece != "" && piece[|piece| - 1] == '\n'
  }

  /** `lines` cuts a text into lines that keep their terminators: no piece
      is empty, no piece holds a line feed before its end, and every piece
      but the last ends with a line feed. */
  predicate IsLineSplit(lines: seq<string>)
  {
    forall i :: 0 <= i < |lines| ==>
      lines[i] != "" && NoInnerNewline(lines[i]) &&
      (i < |lines| - 1 ==> EndsWithNewline(lines[i]))
  }

  /** The pieces of `c` followed by a text whose pieces are `rest`: a line
      feed closes a piece of its own, any other byte opens the first piece. */
  function ConsPiece(c: char, rest: seq<string>): seq<string>
    requires |rest| >= 1
  {
    if c == '\n' then [[c]] + rest else [[c] + rest[0]] + rest[1..]
  }

  lemma ConsPieceSplits(c: char, rest: seq<string>)
    requires |rest| >= 1
    requires forall i :: 0 <= i < |rest| - 1 ==> EndsWithNewline(rest[i]) && NoInnerNewline(rest[i])
    requires '\n' !in rest[|rest| - 1]
    ensures var parts := ConsPiece(c, rest);
            |parts| >= 1 && Join(parts) == [c] + Join(rest) &&
            (forall i :: 0 <= i < |parts| - 1 ==> EndsWithNewline(parts[i]) && NoInnerNewline(parts[i])) &&
            '\n' !in parts[|parts| - 1]
  {
    if c == '\n' {
      assert Join([[c]] + rest) == [c] + Join(rest);
    } else {
      var head := [c] + rest[0];
      var parts := [head] + rest[1..];
      assert Join(parts) == head + Join(rest[1..]);
      assert forall i :: 1 <= i < |parts| ==> parts[i] == rest[i];
      assert |rest| > 1 ==> EndsWithNewline(head) && NoInnerNewline(head);
    }
  }

  /** `strings.SplitAfter(s, "\n")`: cut after every line feed. The last
      piece holds no line feed at all (it is "" when `s` ends with one). */
  function SplitAfter(s: string): (parts: seq<string>)
    ensures |parts| >= 1
    ensures Join(parts) == s
    ensures forall i :: 0 <= i < |parts| - 1 ==> EndsWithNewline(parts[i]) && NoInnerNewline(parts[i])
    ensures '\n' !in parts[|parts| - 1]
  {
    if s == [] then [""]
    else
      var rest := SplitAfter(s[1..]);
      ConsPieceSplits(s[0], rest);
      assert s == [s[0]] + s[1..];
      ConsPiece(s[0], rest)
  }

  /** apply.go `trimSplit`: the lines of `s`, each with its own terminator;
      the empty piece that SplitAfter leaves after a final line feed is dropped. */
  function TrimSplit(s: string): (lines: seq<string>)
    ensures Join(lines) == s
    ensures IsLineSplit(lines)
    ensures lines == [] <==> s == ""
  {
    var parts := SplitAfter(s);
    if parts[|parts| - 1] == "" then
      var lines := parts[..|parts| - 1];
      assert parts == lines + [""];
      JoinAppend(lines, [""]);
      lines
    else
      parts
  }

  /** The text up to and including the first line feed (all of it if none). */
  function FirstLine(s: string): string
  {
    if s == [] then []
    else if s[0] == '\n' then [s[0]]
    else [s[0]] + FirstLine(s[1..])
  }

  /** A line at the head of a text is the text's first line. */
  lemma {:induction false} FirstLineOf(p: string, t: string)
    requires p != "" && NoInnerNewline(p)
    requires EndsWithNewline(p) || t == ""
    ensures FirstLine(p + t) == p
  {
    assert (p + t)[0] == p[0] && (p + t)[1..] == p[1..] + t;
    if |p| > 1 {
      assert p[0] != '\n';
      FirstLineOf(p[1..], t);
    } else if p[0] != '\n' {
      assert p + t == p;
    }
  }

  lemma JoinEmpty(lines: seq<string>)
    requires IsLineSplit(lines)
    ensures lines == [] <==> Join(lines) == ""
  {
    if lines != [] {
      assert |Join(lines)| >= |lines[0]|;
    }
  }

  /** A line split is determined by the text it joins to. */
  lemma {:induction false} LineSplitUnique(a: seq<string>, b: seq<string>)
    requires IsLineSplit(a) && IsLineSplit(b)
    requires Join(a) == Join(b)
    ensures a == b
  {
    JoinEmpty(a);
    JoinEmpty(b);
    if a != [] {
      var s := Join(a);
      assert s == a[0] + Join(a[1..]) && s == b[0] + Join(b[1..]);
      JoinEmpty(a[1..]);
      JoinEmpty(b[1..]);
      FirstLineOf(a[0], Join(a[1..]));
      FirstLineOf(b[0], Join(b[1..]));
      assert a[0] == b[0];
      assert Join(a[1..]) == s[|a[0]|..] == Join(b[1..]);
      LineSplitUnique(a[1..], b[1..]);
    }
  }

  /** Cutting after a complete line commutes with concatenation. */
  lemma TrimSplitAppend(a: string, b: string)
    requires a == "" || EndsWithNewline(a)
    ensures TrimSplit(a + b) == TrimSplit(a) + TrimSplit(b)
  {
    hide TrimSplit, SplitAfter;
    var la, lb := TrimSplit(a), TrimSplit(b);
    if a == "" {
      assert a + b == b;
    } else {
      assert la[|la| - 1][|la[|la| - 1]| - 1] == '\n' by {
        assert la == la[..|la| - 1] + [la[|la| - 1]];
        JoinAppend(la[..|la| - 1], [la[|la| - 1]]);
      }
      assert IsLineSplit(la + lb);
      JoinAppend(la, lb);
      LineSplitUnique(la + lb, TrimSplit(a + b));
    }
  }

  /** A single line with its terminator splits into itself alone. */
  lemma TrimSplitOneLine(line: string)
    requires line != "" && NoInnerNewline(line)
    ensures TrimSplit(line) == [line]
  {
    assert Join([line]) == line;
    LineSplitUnique([line], TrimSplit(line));
  }

  function Max(a: int, b: int): int
  {
    if a < b then b else a
  }

  /** apply.go `similarity`: 1 - distance / longer length, and 1 for two
      empty strings. The edit distance is the foreign `levenshtein`
      package, so it is a parameter here; exact `real` arithmetic stands
      for float64. */
  function Similarity(a: string, b: string, dist: (string, string) -> nat): (r: real)
    ensures r <= 1.0
    ensures |a| == 0 && |b| == 0 ==> r == 1.0
    ensures dist(a, b) == 0 ==> r == 1.0
    ensures dist(a, b) <= Max(|a|, |b|) ==> 0.0 <= r
  {
    if |a| == 0 && |b| == 0 then 1.0
    else 1.0 - (dist(a, b) as real) / (Max(|a|, |b|) as real)
  }
}
