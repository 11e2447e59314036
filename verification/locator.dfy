/** apply.go `Search`: find the lines of a document that resemble a diff's
    search text, starting at the diff's line hint and widening the radius
    one line at a time. */
module Locator {
  import opened Wrappers
  import opened GoStrings
  import opened FuzzyPatch

  /** Byte offset at which line `k` begins: entry `k` of Search's prefix-sum table. */
  function Offset(lines: seq<string>, k: nat): nat
    requires k <= |lines|
  {
    |Join(lines[..k])|
  }

  lemma OffsetStep(lines: seq<string>, k: nat)
    requires k < |lines|
    ensures Offset(lines, k + 1) == Offset(lines, k) + |lines[k]|
  {
    assert lines[..k + 1] == lines[..k] + [lines[k]];
    JoinAppend(lines[..k], [lines[k]]);
  }

  /** The window of `m` lines starting at line `k` sits at bytes
      `[Offset(k), Offset(k + m))` of the joined text. */
  lemma WindowBytes(lines: seq<string>, k: nat, m: nat)
    requires k + m <= |lines|
    ensures Offset(lines, k) <= Offset(lines, k + m) <= |Join(lines)|
    ensures Join(lines)[Offset(lines, k)..Offset(lines, k + m)] == Join(lines[k..k + m])
  {
    assert lines == lines[..k] + lines[k..k + m] + lines[k + m..];
    assert lines[..k + m] == lines[..k] + lines[k..k + m];
    JoinAppend(lines[..k] + lines[k..k + m], lines[k + m..]);
    JoinAppend(lines[..k], lines[k..k + m]);
  }

  function Min(a: int, b: int): int
  {
    if a < b then a else b
  }

  /** The 1-based hint turned into a 0-based line index and clamped into
      the document. `line - 1` is Go `int` arithmetic: for the least int64
      it wraps to the greatest, which clamps to the last line. */
  function StartIndex(line: int, n: nat): (start: nat)
    requires n > 0
    ensures start < n
    ensures MIN_INT64 < line && 1 <= line <= n && line <= MAX_INT64 ==> start == line - 1
    ensures MIN_INT64 < line < 1 ==> start == 0
    ensures n < line <= MAX_INT64 ==> start == n - 1
    ensures line == MIN_INT64 && n <= MAX_INT64 ==> start == n - 1
  {
    Max(0, Min(Wrap64(line - 1), n - 1))
  }

  /** Window starts tried at one radius: the one above (or at) the hint
      first, then, for a positive radius, the one below. A window is
      tried only when it lies inside the document's `n` lines. */
  function TriedAt(start: nat, n: nat, m: nat, radius: nat): (tried: seq<int>)
    ensures |tried| <= 2
  {
    (if start - radius >= 0 && start - radius + m <= n then [start - radius] else []) +
    (if radius > 0 && start + radius + m <= n then [start + radius] else [])
  }

  /** Every window start Search tries from `radius` on, in order: the loop
      stops at the first radius at which nothing is tried. */
  function CandidatesFrom(start: nat, n: nat, m: nat, radius: nat): (r: seq<int>)
    requires start < n
    ensures radius <= n + 1 ==> |r| <= 2 * (n + 1 - radius)
    ensures radius > n ==> r == []
    decreases n + 1 - radius
  {
    var tried := TriedAt(start, n, m, radius);
    if tried == [] then [] else tried + CandidatesFrom(start, n, m, radius + 1)
  }

  /** The window of `m` lines at `k` lies in the document and is similar
      enough to the search text. */
  predicate Accepts(lines: seq<string>, k: int, m: nat, search: string, threshold: real,
                    dist: (string, string) -> nat)
  {
    0 <= k && k + m <= |lines| && Similarity(Join(lines[k..k + m]), search, dist) >= threshold
  }

  /** Index of the first candidate window that is accepted. */
  function FirstAccepted(lines: seq<string>, m: nat, cands: seq<int>, search: string,
                         threshold: real, dist: (string, string) -> nat): (r: Option<nat>)
    ensures r.Some? ==> r.value < |cands| && Accepts(lines, cands[r.value], m, search, threshold, dist)
  {
    if cands == [] then None
    else if Accepts(lines, cands[0], m, search, threshold, dist) then Some(0)
    else match FirstAccepted(lines, m, cands[1..], search, threshold, dist)
      case None => None
      case Some(i) => Some(i + 1)
  }

  /** The window start chosen among `cands`, if any. */
  function FirstWindow(lines: seq<string>, m: nat, cands: seq<int>, search: string,
                       threshold: real, dist: (string, string) -> nat): (r: Option<nat>)
    ensures r.Some? ==> Accepts(lines, r.value, m, search, threshold, dist)
  {
    match FirstAccepted(lines, m, cands, search, threshold, dist)
    case None => None
    case Some(i) => Some(cands[i] as nat)
  }

  /** The number of lines of the search text, as Search counts them. */
  function SearchLines(diff: Diff): nat
  {
    |TrimSplit(diff.search)|
  }

  /** The window start Search settles on for `source`, or None. */
  function ChosenWindow(source: string, diff: Diff, threshold: real,
                        dist: (string, string) -> nat): (r: Option<nat>)
    ensures r.Some? ==> 0 < SearchLines(diff) && r.value + SearchLines(diff) <= |TrimSplit(source)|
  {
    var lines := TrimSplit(source);
    var m := SearchLines(diff);
    if |lines| == 0 || m == 0 || m > |lines| then None
    else FirstWindow(lines, m, CandidatesFrom(StartIndex(diff.line, |lines|), |lines|, m, 0),
                     diff.search, threshold, dist)
  }

  /** The edit Search returns for `source`, or None. */
  function Locate(source: string, diff: Diff, threshold: real,
                  dist: (string, string) -> nat): (r: Option<Edit>)
    ensures r.Some? ==> 0 <= r.value.start <= r.value.end <= |source| && r.value.text == diff.replace
    ensures r.Some? <==> ChosenWindow(source, diff, threshold, dist).Some?
  {
    var lines := TrimSplit(source);
    var m := SearchLines(diff);
    match ChosenWindow(source, diff, threshold, dist)
    case None => None
    case Some(k) =>
      WindowEdges(lines, k, m);
      Some(Edit(Offset(lines, k), Offset(lines, k + m), diff.replace))
  }

  /** apply.go `Search`. On success `e` is the edit of the window chosen by
      `ChosenWindow`; on failure it is the zero Edit. */
  method Search(source: string, diff: Diff, threshold: real, dist: (string, string) -> nat)
    returns (e: Edit, found: bool)
    ensures found == Locate(source, diff, threshold, dist).Some?
    ensures e == if found then Locate(source, diff, threshold, dist).value else Edit(0, 0, "")
  {
    hide TrimSplit, SplitAfter, Join, Similarity, FirstWindow, CandidatesFrom, Offset;
    var lines := TrimSplit(source);
    if |lines| == 0 {
      assert Locate(source, diff, threshold, dist) == None;
      return Edit(0, 0, ""), false;
    }

    var offsets := PrefixOffsets(lines);

    var searchLines := TrimSplit(diff.search);
    var nSearch := |searchLines|;
    if nSearch == 0 || nSearch > |lines| {
      assert Locate(source, diff, threshold, dist) == None;
      return Edit(0, 0, ""), false;
    }

    var startIdx := Wrap64(diff.line - 1);
    startIdx := Max(0, Min(startIdx, |lines| - 1));

    var k;
    k, found := ExpandFrom(lines, nSearch, startIdx, diff.search, threshold, dist);
    LocateWindow(source, diff, threshold, dist);
    if found {
      e := Edit(offsets[k], offsets[k + nSearch], diff.replace);
    } else {
      e := Edit(0, 0, "");
    }
  }

  /** Locate in terms of the radius loop's choice, once the early exits are passed. */
  lemma LocateWindow(source: string, diff: Diff, threshold: real, dist: (string, string) -> nat)
    requires 0 < SearchLines(diff) <= |TrimSplit(source)|
    ensures var lines := TrimSplit(source);
            var m := SearchLines(diff);
            var chosen := FirstWindow(lines, m, CandidatesFrom(StartIndex(diff.line, |lines|), |lines|, m, 0),
                                      diff.search, threshold, dist);
            Locate(source, diff, threshold, dist) ==
              if chosen.Some? then Some(Edit(Offset(lines, chosen.value), Offset(lines, chosen.value + m), diff.replace))
              else None
  {
    hide TrimSplit, SplitAfter, Join, Similarity, FirstWindow, CandidatesFrom, Offset;
  }

  /** Search's table of line offsets: entry `j` is the byte at which line `j` begins. */
  method PrefixOffsets(lines: seq<string>) returns (offsets: array<int>)
    ensures offsets.Length == |lines| + 1
    ensures forall j :: 0 <= j <= |lines| ==> offsets[j] == Offset(lines, j)
  {
    offsets := new int[|lines| + 1](_ => 0);
    var i := 0;
    while i < |lines|
      invariant 0 <= i <= |lines|
      invariant forall j :: 0 <= j <= i ==> offsets[j] == Offset(lines, j)
    {
      OffsetStep(lines, i);
      offsets[i + 1] := offsets[i] + |lines[i]|;
      i := i + 1;
    }
  }

  /** Search's radius loop: the window start tried first that is accepted. */
  method ExpandFrom(lines: seq<string>, nSearch: nat, startIdx: nat, search: string,
                    threshold: real, dist: (string, string) -> nat)
    returns (k: nat, found: bool)
    requires startIdx < |lines|
    ensures var chosen := FirstWindow(lines, nSearch, CandidatesFrom(startIdx, |lines|, nSearch, 0),
                                      search, threshold, dist);
            found == chosen.Some? && (found ==> k == chosen.value)
  {
    hide TrimSplit, SplitAfter, Join, Similarity, FirstWindow, CandidatesFrom;
    ghost var chosen := FirstWindow(lines, nSearch, CandidatesFrom(startIdx, |lines|, nSearch, 0),
                                    search, threshold, dist);
    var radius := 0;
    while true
      invariant chosen == FirstWindow(lines, nSearch, CandidatesFrom(startIdx, |lines|, nSearch, radius),
                                      search, threshold, dist)
      decreases |lines| - radius
    {
      var tried := false;

      var left := startIdx - radius;
      if left >= 0 && left + nSearch <= |lines| {
        tried := true;
        var chunk := Join(lines[left..left + nSearch]);
        if Similarity(chunk, search, dist) >= threshold {
          LeftChosen(lines, nSearch, startIdx, radius, search, threshold, dist);
          return left, true;
        }
      }

      var right := startIdx + radius;
      if radius > 0 && right + nSearch <= |lines| {
        tried := true;
        var chunk := Join(lines[right..right + nSearch]);
        if Similarity(chunk, search, dist) >= threshold {
          RightChosen(lines, nSearch, startIdx, radius, search, threshold, dist);
          return right, true;
        }
      }

      if !tried {
        NothingTried(lines, nSearch, startIdx, radius, search, threshold, dist);
        break;
      }
      AllRejected(lines, nSearch, startIdx, radius, search, threshold, dist);
      radius := radius + 1;
    }
    return 0, false;
  }

  /** At a radius where the window above the hint fits and is accepted, it is chosen. */
  lemma LeftChosen(lines: seq<string>, m: nat, start: nat, radius: nat, search: string,
                   threshold: real, dist: (string, string) -> nat)
    requires start < |lines| && 0 <= start - radius && start - radius + m <= |lines|
    requires Accepts(lines, start - radius, m, search, threshold, dist)
    ensures FirstWindow(lines, m, CandidatesFrom(start, |lines|, m, radius), search, threshold, dist)
         == Some(start - radius)
  {
    var cands := CandidatesFrom(start, |lines|, m, radius);
    assert cands[0] == start - radius;
    FirstWindowHead(lines, m, cands, search, threshold, dist);
  }

  /** At a radius where the window above is out of range or rejected and
      the window below fits and is accepted, the one below is chosen. */
  lemma RightChosen(lines: seq<string>, m: nat, start: nat, radius: nat, search: string,
                    threshold: real, dist: (string, string) -> nat)
    requires start < |lines| && radius > 0 && start + radius + m <= |lines|
    requires 0 <= start - radius && start - radius + m <= |lines| ==>
               !Accepts(lines, start - radius, m, search, threshold, dist)
    requires Accepts(lines, start + radius, m, search, threshold, dist)
    ensures FirstWindow(lines, m, CandidatesFrom(start, |lines|, m, radius), search, threshold, dist)
         == Some(start + radius)
  {
    var n := |lines|;
    var tried := TriedAt(start, n, m, radius);
    var rest := CandidatesFrom(start, n, m, radius + 1);
    var below := [start + radius] + rest;
    assert CandidatesFrom(start, n, m, radius) == tried + rest;
    FirstWindowHead(lines, m, below, search, threshold, dist);
    if 0 <= start - radius && start - radius + m <= n {
      assert tried + rest == [start - radius] + below;
      SkipOne(lines, m, [start - radius] + below, search, threshold, dist);
      assert ([start - radius] + below)[1..] == below;
    } else {
      assert tried + rest == below;
    }
  }

  /** A radius at which no window fits ends the search. */
  lemma NothingTried(lines: seq<string>, m: nat, start: nat, radius: nat, search: string,
                     threshold: real, dist: (string, string) -> nat)
    requires start < |lines|
    requires !(0 <= start - radius && start - radius + m <= |lines|)
    requires !(radius > 0 && start + radius + m <= |lines|)
    ensures FirstWindow(lines, m, CandidatesFrom(start, |lines|, m, radius), search, threshold, dist)
         == None
  {
    assert TriedAt(start, |lines|, m, radius) == [];
  }

  /** A radius whose windows are all rejected leaves the choice to the next radius. */
  lemma AllRejected(lines: seq<string>, m: nat, start: nat, radius: nat, search: string,
                    threshold: real, dist: (string, string) -> nat)
    requires start < |lines|
    requires (0 <= start - radius && start - radius + m <= |lines|) ||
             (radius > 0 && start + radius + m <= |lines|)
    requires 0 <= start - radius && start - radius + m <= |lines| ==>
               !Accepts(lines, start - radius, m, search, threshold, dist)
    requires radius > 0 && start + radius + m <= |lines| ==>
               !Accepts(lines, start + radius, m, search, threshold, dist)
    ensures FirstWindow(lines, m, CandidatesFrom(start, |lines|, m, radius), search, threshold, dist)
         == FirstWindow(lines, m, CandidatesFrom(start, |lines|, m, radius + 1), search, threshold, dist)
  {
    var n := |lines|;
    var tried := TriedAt(start, n, m, radius);
    var rest := CandidatesFrom(start, n, m, radius + 1);
    assert tried != [];
    assert CandidatesFrom(start, n, m, radius) == tried + rest;
    SkipRejected(lines, m, tried, rest, search, threshold, dist);
  }

  /** A first candidate that is accepted is the one chosen. */
  lemma FirstWindowHead(lines: seq<string>, m: nat, cands: seq<int>, search: string,
                        threshold: real, dist: (string, string) -> nat)
    requires cands != [] && Accepts(lines, cands[0], m, search, threshold, dist)
    ensures FirstWindow(lines, m, cands, search, threshold, dist) == Some(cands[0] as nat)
  {
  }

  /** Rejected candidates in front of others change nothing. */
  lemma {:induction false} SkipRejected(lines: seq<string>, m: nat, front: seq<int>, rest: seq<int>,
                                        search: string, threshold: real, dist: (string, string) -> nat)
    requires forall i :: 0 <= i < |front| ==> !Accepts(lines, front[i], m, search, threshold, dist)
    ensures FirstWindow(lines, m, front + rest, search, threshold, dist)
         == FirstWindow(lines, m, rest, search, threshold, dist)
  {
    if front == [] {
      assert front + rest == rest;
    } else {
      var all := front + rest;
      assert all[0] == front[0] && all[1..] == front[1..] + rest;
      SkipOne(lines, m, all, search, threshold, dist);
      SkipRejected(lines, m, front[1..], rest, search, threshold, dist);
    }
  }

  lemma SkipOne(lines: seq<string>, m: nat, cands: seq<int>, search: string,
                threshold: real, dist: (string, string) -> nat)
    requires cands != [] && !Accepts(lines, cands[0], m, search, threshold, dist)
    ensures FirstWindow(lines, m, cands, search, threshold, dist)
         == FirstWindow(lines, m, cands[1..], search, threshold, dist)
  {
    match FirstAccepted(lines, m, cands[1..], search, threshold, dist)
    case None =>
    case Some(i) =>
      assert FirstAccepted(lines, m, cands, search, threshold, dist) == Some(i + 1);
      assert cands[i + 1] == cands[1..][i];
  }

  // ----- Properties of the candidate order -----

  /** Position of window start `k` in the order of the radius loop: the
      hint itself, then one line above, one below, two above, two below, … */
  function Rank(start: int, k: int): nat
  {
    if k == start then 0
    else if k < start then 2 * (start - k) - 1
    else 2 * (k - start)
  }

  function Distance(start: int, k: int): nat
  {
    if k < start then start - k else k - start
  }

  /** Every start in `cands` is a window of the document at least `radius` lines from the hint. */
  predicate AllWithin(cands: seq<int>, start: nat, n: nat, m: nat, radius: nat)
  {
    forall i :: 0 <= i < |cands| ==> 0 <= cands[i] && cands[i] + m <= n && Distance(start, cands[i]) >= radius
  }

  /** Every window of the document at least `radius` lines from the hint is in `cands`. */
  predicate CoversAll(cands: seq<int>, start: nat, n: nat, m: nat, radius: nat)
  {
    forall k :: 0 <= k && k + m <= n && Distance(start, k) >= radius ==> k in cands
  }

  predicate RankIncreasing(cands: seq<int>, start: nat)
  {
    forall i, j :: 0 <= i < j < |cands| ==> Rank(start, cands[i]) < Rank(start, cands[j])
  }

  lemma TriedWithin(start: nat, n: nat, m: nat, radius: nat)
    ensures AllWithin(TriedAt(start, n, m, radius), start, n, m, radius)
  {
  }

  lemma WithinAppend(a: seq<int>, b: seq<int>, start: nat, n: nat, m: nat, radius: nat)
    requires AllWithin(a, start, n, m, radius) && AllWithin(b, start, n, m, radius + 1)
    ensures AllWithin(a + b, start, n, m, radius)
  {
    var ab := a + b;
    forall i | 0 <= i < |ab|
      ensures 0 <= ab[i] && ab[i] + m <= n && Distance(start, ab[i]) >= radius
    {
      if i >= |a| {
        assert ab[i] == b[i - |a|];
      }
    }
  }

  /** The loop from `radius` on tries only windows of the document, none nearer than `radius`. */
  lemma {:induction false} CandidatesWithin(start: nat, n: nat, m: nat, radius: nat)
    requires start < n
    ensures AllWithin(CandidatesFrom(start, n, m, radius), start, n, m, radius)
    decreases n + 1 - radius
  {
    var tried := TriedAt(start, n, m, radius);
    if tried != [] {
      hide AllWithin, Distance;
      CandidatesWithin(start, n, m, radius + 1);
      TriedWithin(start, n, m, radius);
      WithinAppend(tried, CandidatesFrom(start, n, m, radius + 1), start, n, m, radius);
    }
  }

  /** When the window at the hint fits, the loop from `radius` on misses no
      window of the document that is at least `radius` lines from the hint. */
  lemma {:induction false} CandidatesCover(start: nat, n: nat, m: nat, radius: nat)
    requires start < n && start + m <= n
    ensures CoversAll(CandidatesFrom(start, n, m, radius), start, n, m, radius)
    decreases n + 1 - radius
  {
    var tried := TriedAt(start, n, m, radius);
    var cands := CandidatesFrom(start, n, m, radius);
    forall k | 0 <= k && k + m <= n && Distance(start, k) >= radius
      ensures k in cands
    {
      if k <= start {
        assert start - radius >= 0 && start - radius + m <= n;
        assert tried[0] == start - radius;
      } else if radius > 0 {
        assert start + radius + m <= n;
        assert start + radius in tried;
      } else {
        assert tried[0] == start;
      }
      var rest := CandidatesFrom(start, n, m, radius + 1);
      assert cands == tried + rest;
      if Distance(start, k) == radius {
        assert k in tried;
      } else {
        CandidatesCover(start, n, m, radius + 1);
        assert k in rest;
      }
    }
  }

  /** Windows at distance `d` or more rank after every window nearer than `d`. */
  lemma RankByDistance(start: int, k: int, d: nat)
    requires Distance(start, k) >= d > 0
    ensures Rank(start, k) >= 2 * d - 1
  {
  }

  /** The windows of one radius come in increasing Rank, none beyond `2 * radius`. */
  lemma TriedRanked(start: nat, n: nat, m: nat, radius: nat)
    ensures RankIncreasing(TriedAt(start, n, m, radius), start)
    ensures forall i :: 0 <= i < |TriedAt(start, n, m, radius)| ==> Rank(start, TriedAt(start, n, m, radius)[i]) <= 2 * radius
  {
  }

  /** Windows at least `radius + 1` lines away rank beyond `2 * radius`. */
  lemma RanksBeyond(cands: seq<int>, start: nat, n: nat, m: nat, radius: nat)
    requires AllWithin(cands, start, n, m, radius + 1)
    ensures forall i :: 0 <= i < |cands| ==> Rank(start, cands[i]) > 2 * radius
  {
    forall i | 0 <= i < |cands|
      ensures Rank(start, cands[i]) > 2 * radius
    {
      RankByDistance(start, cands[i], radius + 1);
    }
  }

  lemma RankedAppend(a: seq<int>, b: seq<int>, start: nat, bound: int)
    requires RankIncreasing(a, start) && RankIncreasing(b, start)
    requires forall i :: 0 <= i < |a| ==> Rank(start, a[i]) <= bound
    requires forall j :: 0 <= j < |b| ==> Rank(start, b[j]) > bound
    ensures RankIncreasing(a + b, start)
  {
    var ab := a + b;
    forall i, j | 0 <= i < j < |ab|
      ensures Rank(start, ab[i]) < Rank(start, ab[j])
    {
      if j >= |a| {
        assert ab[j] == b[j - |a|];
        if i >= |a| {
          assert ab[i] == b[i - |a|];
        }
      }
    }
  }

  /** The loop tries windows in strictly increasing Rank. */
  lemma {:induction false} CandidatesRanked(start: nat, n: nat, m: nat, radius: nat)
    requires start < n
    ensures RankIncreasing(CandidatesFrom(start, n, m, radius), start)
    decreases n + 1 - radius
  {
    hide Rank, AllWithin;
    var tried := TriedAt(start, n, m, radius);
    if tried != [] {
      var rest := CandidatesFrom(start, n, m, radius + 1);
      CandidatesRanked(start, n, m, radius + 1);
      CandidatesWithin(start, n, m, radius + 1);
      TriedRanked(start, n, m, radius);
      RanksBeyond(rest, start, n, m, radius);
      RankedAppend(tried, rest, start, 2 * radius);
    }
  }

  /** The index FirstAccepted returns is the first accepted candidate. */
  lemma {:induction false} FirstAcceptedIsFirst(lines: seq<string>, m: nat, cands: seq<int>, search: string,
                                                threshold: real, dist: (string, string) -> nat)
    ensures var r := FirstAccepted(lines, m, cands, search, threshold, dist);
            forall j :: 0 <= j < |cands| && (r.None? || j < r.value) ==>
              !Accepts(lines, cands[j], m, search, threshold, dist)
  {
    if cands != [] && !Accepts(lines, cands[0], m, search, threshold, dist) {
      FirstAcceptedIsFirst(lines, m, cands[1..], search, threshold, dist);
      forall j | 1 <= j < |cands|
        ensures cands[j] == cands[1..][j - 1]
      {
      }
    }
  }

  /** When the window at the hint fits, the loop's choice is an accepted
      window and no accepted window comes earlier in its order; when it
      chooses nothing, no window of the document is accepted. */
  lemma WindowNearest(lines: seq<string>, m: nat, start: nat, search: string,
                      threshold: real, dist: (string, string) -> nat)
    requires start < |lines| && start + m <= |lines|
    ensures var r := FirstWindow(lines, m, CandidatesFrom(start, |lines|, m, 0), search, threshold, dist);
            (r.Some? ==> Accepts(lines, r.value, m, search, threshold, dist)) &&
            (forall j :: Accepts(lines, j, m, search, threshold, dist) ==>
               r.Some? && Rank(start, r.value) <= Rank(start, j))
  {
    hide Similarity, Join, CandidatesFrom, FirstAccepted;
    var cands := CandidatesFrom(start, |lines|, m, 0);
    CandidatesWithin(start, |lines|, m, 0);
    CandidatesCover(start, |lines|, m, 0);
    CandidatesRanked(start, |lines|, m, 0);
    FirstAcceptedIsFirst(lines, m, cands, search, threshold, dist);
    var i := FirstAccepted(lines, m, cands, search, threshold, dist);
    forall j | Accepts(lines, j, m, search, threshold, dist)
      ensures i.Some? && Rank(start, cands[i.value]) <= Rank(start, j)
    {
      assert 0 <= j && j + m <= |lines| && Distance(start, j) >= 0;
      assert j in cands;
      var p :| 0 <= p < |cands| && cands[p] == j;
      assert i.Some? && i.value <= p;
      if i.value < p {
        assert Rank(start, cands[i.value]) < Rank(start, cands[p]);
      }
    }
  }

  /** If no window with the search text's line count fits at the clamped
      hint, Search gives up at radius 0, whatever lies elsewhere. */
  lemma GivesUpPastEnd(source: string, diff: Diff, threshold: real, dist: (string, string) -> nat)
    requires var lines := TrimSplit(source);
             0 < |lines| && StartIndex(diff.line, |lines|) + SearchLines(diff) > |lines|
    ensures Locate(source, diff, threshold, dist) == None
  {
    var lines := TrimSplit(source);
    var m := SearchLines(diff);
    if 0 < m <= |lines| {
      var start := StartIndex(diff.line, |lines|);
      assert TriedAt(start, |lines|, m, 0) == [];
    }
  }

  /** A hint of the least int64 wraps round to the last line, so a search
      text of two or more lines is never found there, whatever the document
      holds; any other hint below 1 starts at the first line instead. */
  lemma HintMinWraps(source: string, diff: Diff, threshold: real, dist: (string, string) -> nat)
    requires diff.line == MIN_INT64
    requires 1 < SearchLines(diff) <= |TrimSplit(source)| <= MAX_INT64
    ensures StartIndex(diff.line, |TrimSplit(source)|) == |TrimSplit(source)| - 1
    ensures StartIndex(diff.line + 1, |TrimSplit(source)|) == 0
    ensures Locate(source, diff, threshold, dist) == None
  {
    GivesUpPastEnd(source, diff, threshold, dist);
  }

  /** Search fails when the document has no lines, or the search text has
      no lines or more lines than the document. */
  lemma LocateEarlyExit(source: string, diff: Diff, threshold: real, dist: (string, string) -> nat)
    requires var n := |TrimSplit(source)|;
             n == 0 || SearchLines(diff) == 0 || SearchLines(diff) > n
    ensures Locate(source, diff, threshold, dist) == None
  {
  }

  /** A located edit covers whole consecutive lines of the document, as
      many as the search text has, that resemble the search text at least
      as much as the threshold asks; it carries the replacement text. */
  lemma LocateSound(source: string, diff: Diff, threshold: real, dist: (string, string) -> nat)
    ensures var r := Locate(source, diff, threshold, dist);
            r.Some? ==>
              var e := r.value;
              0 <= e.start <= e.end <= |source| && e.text == diff.replace &&
              (e.start == 0 || source[e.start - 1] == '\n') &&
              (e.end == |source| || source[e.end - 1] == '\n') &&
              |TrimSplit(source[e.start..e.end])| == SearchLines(diff) &&
              Similarity(source[e.start..e.end], diff.search, dist) >= threshold
  {
    hide TrimSplit, SplitAfter, Join, Similarity, FirstWindow, CandidatesFrom, Offset;
    var lines := TrimSplit(source);
    var m := SearchLines(diff);
    var chosen := ChosenWindow(source, diff, threshold, dist);
    if chosen.Some? {
      var k := chosen.value;
      assert Locate(source, diff, threshold, dist) ==
             Some(Edit(Offset(lines, k), Offset(lines, k + m), diff.replace));
      WindowSound(source, lines, k, m, diff.search, threshold, dist);
    }
  }

  /** The bytes of an accepted window of whole lines. */
  lemma WindowSound(source: string, lines: seq<string>, k: nat, m: nat, search: string,
                    threshold: real, dist: (string, string) -> nat)
    requires Join(lines) == source && IsLineSplit(lines)
    requires 0 < m && Accepts(lines, k, m, search, threshold, dist)
    ensures Offset(lines, k) <= Offset(lines, k + m) <= |source|
    ensures Offset(lines, k) == 0 || source[Offset(lines, k) - 1] == '\n'
    ensures Offset(lines, k + m) == |source| || source[Offset(lines, k + m) - 1] == '\n'
    ensures |TrimSplit(source[Offset(lines, k)..Offset(lines, k + m)])| == m
    ensures Similarity(source[Offset(lines, k)..Offset(lines, k + m)], search, dist) >= threshold
  {
    WindowLines(lines, k, m);
    WindowEdges(lines, k, m);
  }

  /** A window of whole lines begins and ends at line boundaries. */
  lemma WindowEdges(lines: seq<string>, k: nat, m: nat)
    requires IsLineSplit(lines) && 0 < m && k + m <= |lines|
    ensures Offset(lines, k) <= Offset(lines, k + m) <= |Join(lines)|
    ensures Offset(lines, k) == 0 || Join(lines)[Offset(lines, k) - 1] == '\n'
    ensures Offset(lines, k + m) == |Join(lines)| || Join(lines)[Offset(lines, k + m) - 1] == '\n'
  {
    WindowBytes(lines, k, m);
    if k > 0 {
      LineEnd(lines, k);
    }
    LineBoundary(lines, k + m);
  }

  /** The bytes of a window of `m > 0` whole lines split back into those `m` lines. */
  lemma WindowLines(lines: seq<string>, k: nat, m: nat)
    requires IsLineSplit(lines) && 0 < m && k + m <= |lines|
    ensures Offset(lines, k) < Offset(lines, k + m) <= |Join(lines)|
    ensures Join(lines)[Offset(lines, k)..Offset(lines, k + m)] == Join(lines[k..k + m])
    ensures TrimSplit(Join(lines)[Offset(lines, k)..Offset(lines, k + m)]) == lines[k..k + m]
  {
    WindowBytes(lines, k, m);
    WindowResplit(lines, k, m);
    OffsetStep(lines, k);
  }

  /** Byte Offset(j) of a line split is its end or follows a line feed. */
  lemma LineBoundary(lines: seq<string>, j: nat)
    requires IsLineSplit(lines) && 0 < j <= |lines|
    ensures 0 < Offset(lines, j) <= |Join(lines)|
    ensures Offset(lines, j) == |Join(lines)| || Join(lines)[Offset(lines, j) - 1] == '\n'
  {
    OffsetStep(lines, j - 1);
    WindowBytes(lines, 0, j);
    if j < |lines| {
      LineEnd(lines, j);
    } else {
      assert lines[..j] == lines;
    }
  }

  /** A window of a line split is itself the line split of its bytes. */
  lemma WindowResplit(lines: seq<string>, k: nat, m: nat)
    requires IsLineSplit(lines) && k + m <= |lines|
    ensures TrimSplit(Join(lines[k..k + m])) == lines[k..k + m]
  {
    var window := lines[k..k + m];
    assert IsLineSplit(window);
    LineSplitUnique(window, TrimSplit(Join(window)));
  }

  /** Line `k - 1` ends with a line feed and is the last thing before
      byte Offset(k). */
  lemma LineEnd(lines: seq<string>, k: nat)
    requires IsLineSplit(lines) && 0 < k < |lines|
    ensures 0 < Offset(lines, k) <= |Join(lines)|
    ensures Join(lines)[Offset(lines, k) - 1] == '\n'
  {
    OffsetStep(lines, k - 1);
    WindowBytes(lines, k - 1, 1);
    assert lines[k - 1..k] == [lines[k - 1]];
    assert Join([lines[k - 1]]) == lines[k - 1];
  }

  /** When the window at the hint fits, Search succeeds exactly when some
      window of the document is accepted, and it picks an accepted window
      that no other accepted window precedes in the radius order. */
  lemma ChosenNearest(source: string, diff: Diff, threshold: real, dist: (string, string) -> nat)
    requires var n := |TrimSplit(source)|;
             0 < SearchLines(diff) <= n && StartIndex(diff.line, n) + SearchLines(diff) <= n
    ensures var lines := TrimSplit(source);
            var m := SearchLines(diff);
            var r := ChosenWindow(source, diff, threshold, dist);
            (r.Some? ==> Accepts(lines, r.value, m, diff.search, threshold, dist)) &&
            (forall j :: Accepts(lines, j, m, diff.search, threshold, dist) ==>
               r.Some? && Rank(StartIndex(diff.line, |lines|), r.value) <=
                          Rank(StartIndex(diff.line, |lines|), j))
  {
    var lines := TrimSplit(source);
    WindowNearest(lines, SearchLines(diff), StartIndex(diff.line, |lines|), diff.search, threshold, dist);
  }

  /** When the search text sits verbatim at the hinted line, Search returns
      that very window at radius 0. */
  lemma ExactAtHint(source: string, diff: Diff, threshold: real, dist: (string, string) -> nat)
    requires var lines := TrimSplit(source);
             var m := SearchLines(diff);
             0 < m <= |lines| &&
             var start := StartIndex(diff.line, |lines|);
             start + m <= |lines| && Join(lines[start..start + m]) == diff.search
    requires dist(diff.search, diff.search) == 0 && threshold <= 1.0
    ensures var lines := TrimSplit(source);
            var m := SearchLines(diff);
            var start := StartIndex(diff.line, |lines|);
            Locate(source, diff, threshold, dist) ==
              Some(Edit(Offset(lines, start), Offset(lines, start + m), diff.replace))
  {
    hide TrimSplit, SplitAfter, Join, Similarity, FirstWindow, CandidatesFrom, Offset;
    var lines := TrimSplit(source);
    var start := StartIndex(diff.line, |lines|);
    LeftChosen(lines, SearchLines(diff), start, 0, diff.search, threshold, dist);
  }

  /** Lowering the threshold never loses a match the higher threshold
      found, and never moves it later in the radius order. */
  lemma ThresholdMonotone(source: string, diff: Diff, low: real, high: real,
                          dist: (string, string) -> nat)
    requires low <= high
    ensures var lo := ChosenWindow(source, diff, low, dist);
            var hi := ChosenWindow(source, diff, high, dist);
            hi.Some? ==> lo.Some? && 0 < |TrimSplit(source)| &&
                         var start := StartIndex(diff.line, |TrimSplit(source)|);
                         Rank(start, lo.value) <= Rank(start, hi.value)
  {
    var n := |TrimSplit(source)|;
    var m := SearchLines(diff);
    if n == 0 || m == 0 || m > n {
      LocateEarlyExit(source, diff, high, dist);
    } else if StartIndex(diff.line, n) + m > n {
      GivesUpPastEnd(source, diff, high, dist);
    } else {
      ChosenNearest(source, diff, low, dist);
      ChosenNearest(source, diff, high, dist);
      var hi := ChosenWindow(source, diff, high, dist);
      if hi.Some? {
        assert Accepts(TrimSplit(source), hi.value, m, diff.search, low, dist);
      }
    }
  }
}
