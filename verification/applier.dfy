/** apply.go `Apply`: sort the edits by start, highest first, then splice
    them into the text from the back, so that the byte offsets of the edits
    still to come are not shifted by the ones already done. */
module Applier {
  import opened Wrappers
  import opened FuzzyPatch

  /** The two errors Apply reports, with the offending edit's range. */
  datatype ApplyError =
    | RangeError(start: int, end: int)    // start < 0, end < start, or end past the buffer
    | OverlapError(start: int, end: int)  // end past the start of the edit applied before

  /** Sorted by start, highest first (ties in any order). */
  predicate SortedDesc(es: seq<Edit>)
  {
    forall i, j :: 0 <= i < j < |es| ==> es[i].start >= es[j].start
  }

  /** How much the edits lengthen the text: each adds its text and removes
      its range. */
  function Growth(es: seq<Edit>): int
  {
    if es == [] then 0 else |es[0].text| - (es[0].end - es[0].start) + Growth(es[1..])
  }

  /** What the splice loop produces from buffer `data` when the edit
      applied last started at `lastEnd`, for the edits `es` still to go. */
  function SpliceFrom(data: string, lastEnd: int, es: seq<Edit>): (r: Result<string, ApplyError>)
    ensures r.Success? ==> |r.value| == |data| + Growth(es)
    ensures r.Failure? ==> es != []
    ensures r.Failure? && r.error.OverlapError? ==> 0 <= r.error.start <= r.error.end
    decreases |es|
  {
    if es == [] then Success(data)
    else
      var e := es[0];
      if e.start < 0 || e.end < e.start || e.end > |data| then Failure(RangeError(e.start, e.end))
      else if e.end > lastEnd then Failure(OverlapError(e.start, e.end))
      else SpliceFrom(data[..e.start] + e.text + data[e.end..], e.start, es[1..])
  }

  /** Sorts `edits` in place by start, highest first (the model of
      `sort.Slice` with `edits[i].Start > edits[j].Start`), by insertion. */
  method SortByStartDesc(edits: array<Edit>)
    modifies edits
    ensures SortedDesc(edits[..])
    ensures multiset(edits[..]) == multiset(old(edits[..]))
  {
    var i := 0;
    while i < edits.Length
      invariant 0 <= i <= edits.Length
      invariant forall p, q :: 0 <= p < q < i ==> edits[p].start >= edits[q].start
      invariant multiset(edits[..]) == multiset(old(edits[..]))
    {
      SinkInto(edits, i);
      i := i + 1;
    }
  }

  /** One insertion step: with `edits[..i]` sorted, swaps `edits[i]` down
      to its place, leaving `edits[..i + 1]` sorted. */
  method SinkInto(edits: array<Edit>, i: nat)
    requires i < edits.Length
    requires forall p, q :: 0 <= p < q < i ==> edits[p].start >= edits[q].start
    modifies edits
    ensures forall p, q :: 0 <= p < q <= i ==> edits[p].start >= edits[q].start
    ensures multiset(edits[..]) == multiset(old(edits[..]))
    ensures edits[i + 1..] == old(edits[i + 1..])
  {
    var j := i;
    while j > 0 && edits[j - 1].start < edits[j].start
      invariant 0 <= j <= i
      invariant forall p, q :: 0 <= p < q <= i && q != j ==> edits[p].start >= edits[q].start
      invariant 0 < j < i ==> edits[j - 1].start >= edits[j + 1].start
      invariant multiset(edits[..]) == multiset(old(edits[..]))
      invariant forall k :: i < k < edits.Length ==> edits[k] == old(edits[k])
    {
      SwapDown(edits, j);
      j := j - 1;
    }
    assert edits[i + 1..] == old(edits[i + 1..]);
  }

  /** Exchanges `edits[j - 1]` and `edits[j]`. */
  method SwapDown(edits: array<Edit>, j: nat)
    requires 0 < j < edits.Length
    modifies edits
    ensures edits[j - 1] == old(edits[j]) && edits[j] == old(edits[j - 1])
    ensures forall k :: 0 <= k < edits.Length && k != j - 1 && k != j ==> edits[k] == old(edits[k])
    ensures multiset(edits[..]) == multiset(old(edits[..]))
  {
    edits[j - 1], edits[j] := edits[j], edits[j - 1];
  }

  /** apply.go `Apply`. An empty list returns the source and leaves the
      list alone; otherwise the list is left sorted by start, highest
      first, and the result is the splice loop's over that order. */
  method Apply(source: string, edits: array<Edit>) returns (r: Result<string, ApplyError>)
    modifies edits
    ensures edits.Length == 0 ==> r == Success(source)
    ensures edits.Length > 0 ==> SortedDesc(edits[..])
    ensures multiset(edits[..]) == multiset(old(edits[..]))
    ensures r == SpliceFrom(source, |source|, edits[..])
  {
    if edits.Length == 0 {
      return Success(source);
    }

    SortByStartDesc(edits);

    var data := source;
    var lastEnd := |data|;
    var i := 0;
    while i < edits.Length
      invariant 0 <= i <= edits.Length
      invariant 0 <= lastEnd <= |data| && lastEnd <= |source|
      invariant data[..lastEnd] == source[..lastEnd]
      invariant SpliceFrom(data, lastEnd, edits[i..]) == SpliceFrom(source, |source|, edits[..])
    {
      var e := edits[i];
      assert edits[i..][1..] == edits[i + 1..];
      if e.start < 0 || e.end < e.start || e.end > |data| {
        return Failure(RangeError(e.start, e.end));
      }
      if e.end > lastEnd {
        return Failure(OverlapError(e.start, e.end));
      }
      assert data[..e.start] == source[..e.start] by {
        assert data[..e.start] == data[..lastEnd][..e.start];
      }
      data := data[..e.start] + e.text + data[e.end..];
      lastEnd := e.start;
      i := i + 1;
    }
    assert edits[i..] == [];
    return Success(data);
  }

  // ----- When Apply succeeds, and what it produces -----

  /** Edits sorted by start, highest first, each within `[0, bound]` and
      ending at or before the start of the edit before it. */
  predicate ValidChain(es: seq<Edit>, bound: int)
    decreases |es|
  {
    es == [] || (0 <= es[0].start <= es[0].end <= bound && ValidChain(es[1..], es[0].start))
  }

  /** ValidChain, edit by edit: every range is well formed, the first ends
      within the bound and each ends at or before its predecessor's start
      (touching ranges allowed). */
  lemma {:induction false} ChainPairwise(es: seq<Edit>, bound: int)
    ensures ValidChain(es, bound) <==>
              (forall i :: 0 <= i < |es| ==> 0 <= es[i].start <= es[i].end) &&
              (es != [] ==> es[0].end <= bound) &&
              (forall i :: 0 < i < |es| ==> es[i].end <= es[i - 1].start)
  {
    if es != [] {
      ChainPairwise(es[1..], es[0].start);
      assert forall i :: 0 < i < |es| ==> es[i] == es[1..][i - 1];
    }
  }

  /** From a buffer whose first `lastEnd` bytes are still to be edited, the
      splice loop succeeds exactly on a valid chain: a range error always
      comes with an edit that also breaks the chain. */
  lemma {:induction false} SpliceSucceedsIff(data: string, lastEnd: int, es: seq<Edit>)
    requires 0 <= lastEnd <= |data|
    ensures SpliceFrom(data, lastEnd, es).Success? <==> ValidChain(es, lastEnd)
    decreases |es|
  {
    if es != [] {
      var e := es[0];
      if 0 <= e.start <= e.end <= lastEnd {
        SpliceSucceedsIff(data[..e.start] + e.text + data[e.end..], e.start, es[1..]);
      }
    }
  }

  /** The edits in the opposite order. */
  function Reverse(es: seq<Edit>): (r: seq<Edit>)
    ensures |r| == |es|
  {
    if es == [] then [] else Reverse(es[1..]) + [es[0]]
  }

  /** Position `i` of the reversed edits holds the edit `i` places from the end. */
  lemma {:induction false} ReverseAt(es: seq<Edit>, i: nat)
    requires i < |es|
    ensures Reverse(es)[i] == es[|es| - 1 - i]
    decreases |es|
  {
    if i < |es| - 1 {
      ReverseAt(es[1..], i);
    }
  }

  /** Edits in ascending order from byte `from`: each starts at or after
      the end of the one before and the last ends within `bound`. */
  predicate Ordered(asc: seq<Edit>, from: int, bound: int)
    decreases |asc|
  {
    if asc == [] then from <= bound
    else from <= asc[0].start <= asc[0].end <= bound && Ordered(asc[1..], asc[0].end, bound)
  }

  /** The reference result, built left to right on the ORIGINAL text: the
      text between edits is copied and each edit's range is replaced by its
      text. */
  function Build(s: string, from: nat, asc: seq<Edit>): string
    requires Ordered(asc, from, |s|)
    decreases |asc|
  {
    if asc == [] then s[from..]
    else s[from..asc[0].start] + asc[0].text + Build(s, asc[0].end, asc[1..])
  }

  lemma {:induction false} OrderedSnoc(asc: seq<Edit>, from: int, e: Edit, bound: int)
    requires Ordered(asc, from, e.start) && e.start <= e.end <= bound
    ensures Ordered(asc + [e], from, bound)
  {
    if asc != [] {
      assert (asc + [e])[1..] == asc[1..] + [e];
      OrderedSnoc(asc[1..], asc[0].end, e, bound);
    }
  }

  lemma {:induction false} ChainOrdered(es: seq<Edit>, bound: int)
    requires ValidChain(es, bound) && 0 <= bound
    ensures Ordered(Reverse(es), 0, bound)
  {
    if es != [] {
      ChainOrdered(es[1..], es[0].start);
      OrderedSnoc(Reverse(es[1..]), 0, es[0], bound);
    }
  }

  /** Adding, after the others, an edit that lies beyond all of them:
      Build on the text up to its start, then its text, then the rest. */
  lemma {:induction false} BuildSnoc(s: string, from: nat, asc: seq<Edit>, e: Edit)
    requires Ordered(asc, from, e.start) && from <= e.start <= e.end <= |s|
    ensures Ordered(asc, from, |s[..e.start]|) && Ordered(asc + [e], from, |s|)
    ensures Build(s, from, asc + [e]) == Build(s[..e.start], from, asc) + e.text + s[e.end..]
    decreases |asc|
  {
    hide Build, Ordered;
    OrderedSnoc(asc, from, e, |s|);
    var head := s[..e.start];
    assert |head| == e.start;
    if asc == [] {
      assert asc + [e] == [e] && [e][0] == e && [e][1..] == [];
      BuildStep(s, from, [e]);
      BuildEmpty(s, e.end);
      BuildEmpty(head, from);
      assert head[from..] == s[from..e.start];
    } else {
      var a := asc[0];
      assert (asc + [e])[0] == a && (asc + [e])[1..] == asc[1..] + [e];
      OrderedStep(asc, from, e.start);
      BuildSnoc(s, a.end, asc[1..], e);
      BuildStep(s, from, asc + [e]);
      BuildStep(head, from, asc);
      assert head[from..a.start] == s[from..a.start];
    }
  }

  /** Ordered unfolded once. */
  lemma OrderedStep(asc: seq<Edit>, from: int, bound: int)
    requires asc != [] && Ordered(asc, from, bound)
    ensures from <= asc[0].start <= asc[0].end <= bound && Ordered(asc[1..], asc[0].end, bound)
  {
  }

  /** Build with no edits copies the rest of the text. */
  lemma BuildEmpty(s: string, from: nat)
    requires from <= |s|
    ensures Ordered([], from, |s|) && Build(s, from, []) == s[from..]
  {
  }

  /** Build unfolded once. */
  lemma BuildStep(s: string, from: nat, asc: seq<Edit>)
    requires asc != [] && Ordered(asc, from, |s|)
    ensures Ordered(asc[1..], asc[0].end, |s|)
    ensures Build(s, from, asc) == s[from..asc[0].start] + asc[0].text + Build(s, asc[0].end, asc[1..])
  {
  }

  /** Splicing a valid chain into `p + t`, where `t` lies past every edit,
      gives the reference result on `p` followed by `t`. */
  lemma {:induction false} SpliceBuild(p: string, t: string, es: seq<Edit>)
    requires ValidChain(es, |p|)
    ensures Ordered(Reverse(es), 0, |p|)
    ensures SpliceFrom(p + t, |p|, es) == Success(Build(p, 0, Reverse(es)) + t)
    decreases |es|
  {
    hide Build, Ordered;
    ChainOrdered(es, |p|);
    if es == [] {
      BuildEmpty(p, 0);
    } else {
      var e := es[0];
      var p', t' := p[..e.start], e.text + p[e.end..] + t;
      assert (p + t)[..e.start] == p' && (p + t)[e.end..] == p[e.end..] + t;
      assert (p + t)[..e.start] + e.text + (p + t)[e.end..] == p' + t';
      assert |p'| == e.start;
      SpliceBuild(p', t', es[1..]);
      BuildSnoc(p, 0, Reverse(es[1..]), e);
      assert Reverse(es) == Reverse(es[1..]) + [e];
      var x := Build(p', 0, Reverse(es[1..]));
      assert x + t' == (x + e.text + p[e.end..]) + t;
      calc {
        SpliceFrom(p + t, |p|, es);
        SpliceFrom(p' + t', e.start, es[1..]);
        Success(Build(p', 0, Reverse(es[1..])) + t');
        Success((Build(p', 0, Reverse(es[1..])) + e.text + p[e.end..]) + t);
        Success(Build(p, 0, Reverse(es)) + t);
      }
    }
  }

  /** On a valid chain Apply returns the source with each edit's range
      replaced by its text, as if every edit were applied to the original
      offsets at once. */
  lemma ApplyReplacesRanges(source: string, es: seq<Edit>)
    requires ValidChain(es, |source|)
    ensures Ordered(Reverse(es), 0, |source|)
    ensures SpliceFrom(source, |source|, es) == Success(Build(source, 0, Reverse(es)))
  {
    SpliceBuild(source, "", es);
    assert source + "" == source;
    assert Build(source, 0, Reverse(es)) + "" == Build(source, 0, Reverse(es));
  }

  // ----- Where Apply stops -----

  /** The bound edit `i` must end within: the start of the edit before it,
      or `top` for the first. */
  function Before(es: seq<Edit>, i: nat, top: int): int
    requires i < |es|
  {
    if i == 0 then top else es[i - 1].start
  }

  /** A failing Apply stops at the first edit that breaks the chain and
      reports that edit's range. The error is a range error exactly when
      the edit's range is malformed or ends past the buffer as the edits
      before it have left it (`|data| + Growth(es[..i])` bytes long), and an
      overlap error otherwise. */
  lemma {:induction false} FailsAtFirstBadEdit(data: string, lastEnd: int, es: seq<Edit>)
    requires 0 <= lastEnd <= |data|
    ensures var r := SpliceFrom(data, lastEnd, es);
            r.Failure? ==>
              exists i :: 0 <= i < |es| && ValidChain(es[..i], lastEnd) &&
                !(0 <= es[i].start <= es[i].end <= Before(es, i, lastEnd)) &&
                r.error.start == es[i].start && r.error.end == es[i].end &&
                (r.error.RangeError? <==>
                   es[i].start < 0 || es[i].end < es[i].start || es[i].end > |data| + Growth(es[..i]))
    decreases |es|
  {
    var r := SpliceFrom(data, lastEnd, es);
    if r.Failure? {
      var e := es[0];
      if !(0 <= e.start <= e.end <= lastEnd) {
        assert es[..0] == [];
        assert Before(es, 0, lastEnd) == lastEnd && Growth(es[..0]) == 0;
      } else {
        var data' := data[..e.start] + e.text + data[e.end..];
        FailsAtFirstBadEdit(data', e.start, es[1..]);
        var i' :| 0 <= i' < |es[1..]| && ValidChain(es[1..][..i'], e.start) &&
                  !(0 <= es[1..][i'].start <= es[1..][i'].end <= Before(es[1..], i', e.start)) &&
                  r.error.start == es[1..][i'].start && r.error.end == es[1..][i'].end &&
                  (r.error.RangeError? <==>
                     es[1..][i'].start < 0 || es[1..][i'].end < es[1..][i'].start ||
                     es[1..][i'].end > |data'| + Growth(es[1..][..i']));
        ChainShift(es, lastEnd, i');
        assert es[..i' + 1][1..] == es[1..][..i'];
        assert Growth(es[..i' + 1]) == |e.text| - (e.end - e.start) + Growth(es[1..][..i']);
      }
    }
  }

  /** The range check runs against the buffer as already spliced: an edit
      reaching past the shortened buffer is a range error, even when it
      overlaps the edit just applied and lies inside the original text. */
  lemma ShrunkBufferRangeError(data: string, lastEnd: int, e1: Edit, e2: Edit)
    requires 0 <= e1.start <= e1.end <= |data| && e1.end <= lastEnd
    requires e2.end > |data| - (e1.end - e1.start) + |e1.text|
    ensures SpliceFrom(data, lastEnd, [e1, e2]) == Failure(RangeError(e2.start, e2.end))
  {
    var data' := data[..e1.start] + e1.text + data[e1.end..];
    assert [e1, e2][1..] == [e2];
    assert SpliceFrom(data, lastEnd, [e1, e2]) == SpliceFrom(data', e1.start, [e2]);
  }

  /** Deleting bytes 3..10 of a ten-byte text and then 0..5: the second
      edit overlaps the first, yet it is reported as a range error. */
  lemma OverlapReportedAsRange()
    ensures SpliceFrom("0123456789", 10, [Edit(3, 10, ""), Edit(0, 5, "")]) == Failure(RangeError(0, 5))
  {
    ShrunkBufferRangeError("0123456789", 10, Edit(3, 10, ""), Edit(0, 5, ""));
  }

  /** A chain prefix of `es[1..]` after a well-formed `es[0]` is a chain
      prefix of `es`, one longer. */
  lemma ChainShift(es: seq<Edit>, bound: int, i': nat)
    requires i' + 1 < |es| && 0 <= es[0].start <= es[0].end <= bound
    requires ValidChain(es[1..][..i'], es[0].start)
    ensures ValidChain(es[..i' + 1], bound)
    ensures Before(es, i' + 1, bound) == Before(es[1..], i', es[0].start) && es[i' + 1] == es[1..][i']
  {
    assert es[..i' + 1][1..] == es[1..][..i'];
  }

  // ----- Order of the edits -----

  predicate DistinctStarts(es: seq<Edit>)
  {
    forall i, j :: 0 <= i < j < |es| ==> es[i].start != es[j].start
  }

  /** Two orderings of the same edits, both sorted by start with no two
      starts equal, are the same sequence. */
  lemma {:induction false} SortedUnique(a: seq<Edit>, b: seq<Edit>)
    requires SortedDesc(a) && SortedDesc(b) && multiset(a) == multiset(b) && DistinctStarts(a)
    ensures a == b
  {
    if a == [] {
      assert |b| == |multiset(b)| == 0;
    } else {
      SameHead(a, b);
      TailsAgree(a, b);
      SortedUnique(a[1..], b[1..]);
      assert a == [a[0]] + a[1..] && b == [b[0]] + b[1..];
    }
  }

  /** Of two such orderings, neither empty, the first elements agree. */
  lemma SameHead(a: seq<Edit>, b: seq<Edit>)
    requires SortedDesc(a) && SortedDesc(b) && multiset(a) == multiset(b) && DistinctStarts(a)
    requires a != []
    ensures b != [] && a[0] == b[0]
  {
    assert a[0] in multiset(b);
    var j :| 0 <= j < |b| && b[j] == a[0];
    assert b[0] in multiset(a);
    var i :| 0 <= i < |a| && a[i] == b[0];
    assert b[0].start >= b[j].start == a[0].start >= a[i].start;
  }

  /** Dropping the same first edit from two such orderings leaves two such
      orderings of the same edits. */
  lemma TailsAgree(a: seq<Edit>, b: seq<Edit>)
    requires SortedDesc(a) && SortedDesc(b) && multiset(a) == multiset(b) && DistinctStarts(a)
    requires a != [] && b != [] && a[0] == b[0]
    ensures SortedDesc(a[1..]) && SortedDesc(b[1..]) && DistinctStarts(a[1..])
    ensures multiset(a[1..]) == multiset(b[1..])
  {
    MultisetTail(a);
    MultisetTail(b);
  }

  lemma MultisetTail(s: seq<Edit>)
    requires s != []
    ensures multiset(s[1..]) == multiset(s) - multiset{s[0]}
  {
    assert s == [s[0]] + s[1..];
    assert multiset(s) == multiset{s[0]} + multiset(s[1..]);
  }

  /** When no two edits share a start, what Apply returns depends only on
      which edits it is given, not on their order in the list. */
  lemma ApplyOrderIndependent(source: string, a: seq<Edit>, b: seq<Edit>)
    requires SortedDesc(a) && SortedDesc(b) && multiset(a) == multiset(b) && DistinctStarts(a)
    ensures SpliceFrom(source, |source|, a) == SpliceFrom(source, |source|, b)
  {
    SortedUnique(a, b);
  }

  /** Edits with equal starts are left in an order the sort does not fix,
      and the order matters: two insertions at the same byte come out in
      the reverse of the order they are applied in. */
  lemma TiedStartsOrderMatters()
    ensures SortedDesc([Edit(0, 0, "a"), Edit(0, 0, "b")])
    ensures SortedDesc([Edit(0, 0, "b"), Edit(0, 0, "a")])
    ensures SpliceFrom("", 0, [Edit(0, 0, "a"), Edit(0, 0, "b")]) == Success("ba")
    ensures SpliceFrom("", 0, [Edit(0, 0, "b"), Edit(0, 0, "a")]) == Success("ab")
  {
    InsertTwice("a", "b");
    InsertTwice("b", "a");
    assert "b" + "a" == "ba" && "a" + "b" == "ab";
  }

  /** Two insertions at byte 0 of an empty text, `first` applied first. */
  lemma InsertTwice(first: string, second: string)
    ensures SpliceFrom("", 0, [Edit(0, 0, first), Edit(0, 0, second)]) == Success(second + first)
  {
    var x, y := Edit(0, 0, first), Edit(0, 0, second);
    assert [x, y][1..] == [y];
    assert ""[..0] + first + ""[0..] == first;
    assert first[..0] + second + first[0..] == second + first;
    assert SpliceFrom("", 0, [x, y]) == SpliceFrom(first, 0, [y]);
    assert [y][1..] == [];
    assert SpliceFrom(first, 0, [y]) == SpliceFrom(second + first, 0, []);
  }
}

