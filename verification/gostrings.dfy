/** The behaviour of the few functions of Go's `strings` and `strconv`
    packages that the patcher relies on, written out over byte strings.
    A Go string is a sequence of bytes; here each `char` stands for one
    byte, so `|s|` is Go's `len(s)`. */
module GoStrings {
  import opened Wrappers

  const MIN_INT64: int := -0x8000_0000_0000_0000
  const MAX_INT64: int := 0x7fff_ffff_ffff_ffff

  /** Go's 64-bit `int` arithmetic: `x` wrapped into the int64 range. */
  function Wrap64(x: int): (r: int)
    ensures MIN_INT64 <= r <= MAX_INT64
    ensures MIN_INT64 <= x <= MAX_INT64 ==> r == x
    ensures (r - x) % 0x1_0000_0000_0000_0000 == 0
  {
    (x - MIN_INT64) % 0x1_0000_0000_0000_0000 + MIN_INT64
  }

  /** `strings.Join(ss, "")`: the pieces laid end to end. */
  function Join(ss: seq<string>): (r: string)
  {
    if ss == [] then "" else ss[0] + Join(ss[1..])
  }

  lemma {:induction false} JoinAppend(a: seq<string>, b: seq<string>)
    ensures Join(a + b) == Join(a) + Join(b)
  {
    if a == [] {
      assert a + b == b;
    } else {
      assert (a + b)[1..] == a[1..] + b;
      JoinAppend(a[1..], b);
    }
  }

  predicate HasPrefix(s: string, prefix: string)
  {
    |prefix| <= |s| && s[..|prefix|] == prefix
  }

  /** `strings.CutPrefix`: the rest after `prefix` and true, or `s` itself and false. */
  function CutPrefix(s: string, prefix: string): (r: (string, bool))
    ensures r.1 == HasPrefix(s, prefix)
    ensures r.1 ==> prefix + r.0 == s
    ensures !r.1 ==> r.0 == s
  {
    if HasPrefix(s, prefix) then (s[|prefix|..], true) else (s, false)
  }

  predicate IsEol(c: char)
  {
    c == '\r' || c == '\n'
  }

  /** `strings.TrimRight(s, "\r\n")`: drops every trailing CR and LF. */
  function TrimRightEol(s: string): (r: string)
    ensures |r| <= |s| && r == s[..|r|]
    ensures r == "" || !IsEol(r[|r| - 1])
    ensures forall k :: |r| <= k < |s| ==> IsEol(s[k])
  {
    if s != [] && IsEol(s[|s| - 1]) then TrimRightEol(s[..|s| - 1]) else s
  }

  /** The ASCII white space that `strings.TrimSpace` removes. */
  predicate IsSpace(c: char)
  {
    c == ' ' || c == '\t' || c == '\n' || c == '\U{B}' || c == '\U{C}' || c == '\r'
  }

  function TrimRightSpace(s: string): (r: string)
    ensures |r| <= |s| && r == s[..|r|]
    ensures r == "" || !IsSpace(r[|r| - 1])
    ensures forall k :: |r| <= k < |s| ==> IsSpace(s[k])
  {
    if s != [] && IsSpace(s[|s| - 1]) then TrimRightSpace(s[..|s| - 1]) else s
  }

  function TrimLeftSpace(s: string): (r: string)
    ensures |r| <= |s| && r == s[|s| - |r|..]
    ensures r == "" || !IsSpace(r[0])
    ensures forall k :: 0 <= k < |s| - |r| ==> IsSpace(s[k])
  {
    if s != [] && IsSpace(s[0]) then TrimLeftSpace(s[1..]) else s
  }

  /** `r` sits in `s` at offset `i` with only white space before and after it. */
  predicate SpaceAround(s: string, i: int, r: string)
  {
    0 <= i <= |s| - |r| && r == s[i..i + |r|] &&
    (forall k :: 0 <= k < i ==> IsSpace(s[k])) &&
    (forall k :: i + |r| <= k < |s| ==> IsSpace(s[k]))
  }

  /** `r` is `s` with its leading and trailing white space cut off: it sits
      in `s` with only white space around it, it is empty exactly when `s`
      holds nothing but white space, and otherwise it neither starts nor
      ends with white space. */
  ghost predicate TrimmedOf(s: string, r: string)
  {
    (exists i :: SpaceAround(s, i, r)) &&
    (r == "" <==> forall k :: 0 <= k < |s| ==> IsSpace(s[k])) &&
    (r != "" ==> !IsSpace(r[0]) && !IsSpace(r[|r| - 1]))
  }

  /** `strings.TrimSpace` (ASCII white space only). */
  function TrimSpace(s: string): (r: string)
    ensures TrimmedOf(s, r)
  {
    hide TrimRightSpace, TrimLeftSpace, TrimmedOf;
    CutBothEnds(s);
    TrimLeftSpace(TrimRightSpace(s))
  }

  /** Cutting white space off the right of `s`, then off the left of what
      remains, trims `s`. */
  lemma CutBothEnds(s: string)
    ensures TrimmedOf(s, TrimLeftSpace(TrimRightSpace(s)))
  {
    hide TrimRightSpace, TrimLeftSpace;
    var right := TrimRightSpace(s);
    var r := TrimLeftSpace(right);
    assert r != "" ==> r[|r| - 1] == right[|right| - 1];
    var i := |right| - |r|;
    assert r == s[i..i + |r|];
    assert forall k :: 0 <= k < i ==> IsSpace(s[k]) by {
      forall k | 0 <= k < i ensures IsSpace(s[k]) {
        assert s[k] == right[k];
      }
    }
    assert i + |r| == |right|;
    assert forall k :: i + |r| <= k < |s| ==> IsSpace(s[k]);
    assert SpaceAround(s, i, r);
  }

  predicate IsDigit(c: char)
  {
    '0' <= c <= '9'
  }

  predicate AllDigits(s: string)
  {
    forall k :: 0 <= k < |s| ==> IsDigit(s[k])
  }

  /** The value of a string of decimal digits, most significant first. */
  function DigitsValue(s: string): (v: nat)
    requires AllDigits(s)
  {
    if s == [] then 0 else DigitsValue(s[..|s| - 1]) * 10 + (s[|s| - 1] - '0') as nat
  }

  /** `strconv.Atoi` on a 64-bit platform: an optional sign, then one or
      more ASCII digits, and a value that fits in an int64. */
  function Atoi(s: string): (r: Option<int>)
    ensures r.Some? ==> MIN_INT64 <= r.value <= MAX_INT64
    ensures r.Some? ==> s != "" && (IsDigit(s[0]) || s[0] == '+' || s[0] == '-')
  {
    var signed := s != "" && (s[0] == '+' || s[0] == '-');
    var digits := if signed then s[1..] else s;
    if digits == "" || !AllDigits(digits) then None
    else
      var v: int := if signed && s[0] == '-' then -(DigitsValue(digits) as int) else DigitsValue(digits);
      if MIN_INT64 <= v <= MAX_INT64 then Some(v) else None
  }

  /** Decimal digits of a natural number, with no leading zero. */
  function NatDigits(k: nat): (s: string)
    ensures s != [] && AllDigits(s)
    ensures DigitsValue(s) == k
  {
    var last := ['0' + (k % 10) as char];
    if k < 10 then last
    else
      var prefix := NatDigits(k / 10);
      var s := prefix + last;
      assert s[..|s| - 1] == prefix;
      s
  }

  /** `strconv.Itoa`: the decimal form of `n`, with a leading minus when negative. */
  function Itoa(n: int): (s: string)
    ensures s != [] && (IsDigit(s[0]) || s[0] == '-') && IsDigit(s[|s| - 1])
    ensures forall k :: 0 < k < |s| ==> IsDigit(s[k])
  {
    if n < 0 then "-" + NatDigits(-n) else NatDigits(n)
  }

  /** `strconv.Atoi` reads back what `strconv.Itoa` writes, on the int64 range. */
  lemma AtoiItoa(n: int)
    requires MIN_INT64 <= n <= MAX_INT64
    ensures Atoi(Itoa(n)) == Some(n)
  {
    if n < 0 {
      assert Itoa(n)[1..] == NatDigits(-n);
    }
  }
}
