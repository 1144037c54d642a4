/** ASCII string primitives the prompt builder relies on: the character
    classes behind Python's `str.strip`, `str.upper` and the regex classes
    `\s` and `\w`, plus `str.join`, `str.split`, `str.count` and decimal
    rendering of counters, each with the property that pins it down. */
module Strings {
  import opened Wrappers

  /** ASCII whitespace as Python sees it: space, TAB..CR (9-13) and the
      information separators 28-31. */
  predicate IsSpace(c: char) {
    c == ' ' || '\t' <= c <= '\r' || '\U{1C}' <= c <= '\U{1F}'
  }

  /** The ASCII part of the regex class `\w`. */
  predicate IsWordChar(c: char) {
    'a' <= c <= 'z' || 'A' <= c <= 'Z' || '0' <= c <= '9' || c == '_'
  }

  predicate IsDigit(c: char) {
    '0' <= c <= '9'
  }

  predicate AllSpace(s: string) {
    forall i :: 0 <= i < |s| ==> IsSpace(s[i])
  }

  predicate AllDigits(s: string) {
    forall i :: 0 <= i < |s| ==> IsDigit(s[i])
  }

  /** `pat` occurs in `s` starting at index `i`. */
  predicate MatchAt(s: string, pat: string, i: int) {
    0 <= i <= |s| - |pat| && s[i..i + |pat|] == pat
  }

  ghost predicate Occurs(s: string, pat: string) {
    exists i :: MatchAt(s, pat, i)
  }

  // ---------------------------------------------------------------------
  // Upper-casing
  // ---------------------------------------------------------------------

  /** ASCII upper-casing of one character. */
  function ToUpperChar(c: char): (u: char)
    ensures !('a' <= u <= 'z')
    ensures IsSpace(u) <==> IsSpace(c)
    ensures IsWordChar(u) <==> IsWordChar(c)
    ensures IsDigit(u) <==> IsDigit(c)
    ensures 'A' <= u <= 'Z' <==> 'A' <= c <= 'Z' || 'a' <= c <= 'z'
  {
    if 'a' <= c <= 'z' then (c as int - 32) as char else c
  }

  /** `str.upper` restricted to ASCII letters. */
  function Upper(s: string): (r: string)
    ensures |r| == |s|
    ensures forall i :: 0 <= i < |s| ==> r[i] == ToUpperChar(s[i])
  {
    seq(|s|, i requires 0 <= i < |s| => ToUpperChar(s[i]))
  }

  // ---------------------------------------------------------------------
  // Trimming (`str.strip`)
  // ---------------------------------------------------------------------

  /** Drops leading whitespace: the result is the longest suffix of `s`
      whose removed prefix is all whitespace and which does not itself
      start with whitespace. */
  function TrimLeft(s: string): (r: string)
    ensures |r| <= |s| && r == s[|s| - |r|..]
    ensures AllSpace(s[..|s| - |r|])
    ensures r == [] || !IsSpace(r[0])
    decreases |s|
  {
    if |s| > 0 && IsSpace(s[0]) then
      var r := TrimLeft(s[1..]);
      assert s[..|s| - |r|] == [s[0]] + s[1..][..|s[1..]| - |r|];
      r
    else
      s
  }

  /** Drops trailing whitespace, symmetrically to `TrimLeft`. */
  function TrimRight(s: string): (r: string)
    ensures |r| <= |s| && r == s[..|r|]
    ensures AllSpace(s[|r|..])
    ensures r == [] || !IsSpace(r[|r| - 1])
    decreases |s|
  {
    if |s| > 0 && IsSpace(s[|s| - 1]) then
      var r := TrimRight(s[..|s| - 1]);
      assert s[|r|..] == s[..|s| - 1][|r|..] + [s[|s| - 1]];
      r
    else
      s
  }

  /** `str.strip()`: whitespace removed from both ends. */
  function Trim(s: string): (r: string)
    ensures |r| <= |s|
    ensures r == [] || (!IsSpace(r[0]) && !IsSpace(r[|r| - 1]))
  {
    TrimRight(TrimLeft(s))
  }

  /** The stripped text is the infix `s[i..i + |Trim(s)|]` whose margins on
      both sides are all whitespace. */
  lemma TrimIsInfix(s: string) returns (i: nat)
    ensures i + |Trim(s)| <= |s| && Trim(s) == s[i..i + |Trim(s)|]
    ensures AllSpace(s[..i]) && AllSpace(s[i + |Trim(s)|..])
  {
    var t := TrimLeft(s);
    var r := TrimRight(t);
    i := |s| - |t|;
    SliceOfSuffix(s, i, |r|);
  }

  /** Slicing a suffix again: an infix and a shorter suffix of the original. */
  lemma SliceOfSuffix(s: string, i: nat, j: nat)
    requires i + j <= |s|
    ensures s[i..][..j] == s[i..i + j] && s[i..][j..] == s[i + j..]
  {
  }


  lemma {:induction false} TrimLeftOfTrimmed(s: string)
    requires s == [] || !IsSpace(s[0])
    ensures TrimLeft(s) == s
  {
  }

  lemma {:induction false} TrimRightOfTrimmed(s: string)
    requires s == [] || !IsSpace(s[|s| - 1])
    ensures TrimRight(s) == s
  {
  }

  /** Stripping twice is stripping once. */
  lemma TrimIdempotent(s: string)
    ensures Trim(Trim(s)) == Trim(s)
  {
    var t := Trim(s);
    TrimLeftOfTrimmed(t);
    TrimRightOfTrimmed(t);
  }

  /** Leading whitespace followed by a non-space is exactly what `TrimLeft`
      removes. */
  lemma {:induction false} TrimLeftAt(s: string, k: nat)
    requires k <= |s| && AllSpace(s[..k])
    requires k == |s| || !IsSpace(s[k])
    ensures TrimLeft(s) == s[k..]
    decreases k
  {
    if k > 0 {
      assert IsSpace(s[..k][0]);
      assert s[1..][..k - 1] == s[1..k];
      TrimLeftAt(s[1..], k - 1);
      assert s[1..][k - 1..] == s[k..];
    }
  }

  /** `s` without the leading `prefix`, if it has it. */
  function StripPrefix(prefix: string, s: string): (r: Option<string>)
    ensures r.Some? ==> prefix + r.value == s
    ensures r.None? ==> !(prefix <= s)
  {
    if prefix <= s then Some(s[|prefix|..]) else None
  }

  lemma StripPrefixOf(prefix: string, rest: string)
    ensures StripPrefix(prefix, prefix + rest) == Some(rest)
  {
    assert prefix <= prefix + rest;
    assert (prefix + rest)[|prefix|..] == rest;
  }

  /** `s` without `suffix`, when it ends with it. */
  function StripSuffix(suffix: string, s: string): (r: Option<string>)
    ensures r.Some? ==> r.value + suffix == s
    ensures r.None? ==> !(|suffix| <= |s| && s[|s| - |suffix|..] == suffix)
  {
    if |suffix| <= |s| && s[|s| - |suffix|..] == suffix then Some(s[..|s| - |suffix|]) else None
  }

  lemma StripSuffixOf(suffix: string, front: string)
    ensures StripSuffix(suffix, front + suffix) == Some(front)
  {
    var s := front + suffix;
    assert s[|s| - |suffix|..] == suffix;
    assert s[..|s| - |suffix|] == front;
  }

  /** `s.find(pat)`, with `|s|` standing for "not found": the first index
      where `pat` occurs. */
  function IndexOf(s: string, pat: string): (k: nat)
    ensures k <= |s|
    ensures forall i :: 0 <= i < k ==> !MatchAt(s, pat, i)
    ensures k < |s| ==> MatchAt(s, pat, k)
    decreases |s|
  {
    if MatchAt(s, pat, 0) || |s| == 0 then 0
    else
      MatchShiftAll(s, pat);
      1 + IndexOf(s[1..], pat)
  }

  lemma MatchShiftAll(s: string, pat: string)
    requires |s| > 0
    ensures forall i :: 0 < i ==> (MatchAt(s, pat, i) <==> MatchAt(s[1..], pat, i - 1))
  {
    forall i | 0 < i ensures MatchAt(s, pat, i) <==> MatchAt(s[1..], pat, i - 1) {
      MatchShift(s, pat, i);
    }
  }

  // ---------------------------------------------------------------------
  // `sep.join(xs)` and `s.split(c)`
  // ---------------------------------------------------------------------

  /** Python's `sep.join(xs)`. */
  function Join(xs: seq<string>, sep: string): string
    decreases |xs|
  {
    if |xs| == 0 then []
    else if |xs| == 1 then xs[0]
    else xs[0] + sep + Join(xs[1..], sep)
  }

  /** Python's `s.split(c)` for a one-character separator: the maximal
      separator-free pieces, always at least one. */
  function Split(s: string, c: char): (r: seq<string>)
    ensures |r| > 0
    ensures forall i :: 0 <= i < |r| ==> c !in r[i]
    decreases |s|
  {
    if |s| == 0 then [[]]
    else
      var rest := Split(s[1..], c);
      if s[0] == c then [[]] + rest
      else [[s[0]] + rest[0]] + rest[1..]
  }

  /** A separator-free prefix becomes the head of the first piece. */
  lemma {:induction false} SplitPrefix(a: string, b: string, c: char)
    requires c !in a
    ensures Split(a + b, c) == [a + Split(b, c)[0]] + Split(b, c)[1..]
    decreases |a|
  {
    var r := Split(b, c);
    if |a| > 0 {
      var rest := Split(a[1..] + b, c);
      SplitPrefix(a[1..], b, c);
      assert Split(a + b, c) == [[a[0]] + rest[0]] + rest[1..] by {
        assert (a + b)[1..] == a[1..] + b;
        assert (a + b)[0] == a[0] && a[0] != c;
      }
      assert [a[0]] + (a[1..] + r[0]) == a + r[0];
    } else {
      assert a + b == b;
      assert a + r[0] == r[0];
      assert r == [r[0]] + r[1..];
    }
  }


  /** Splitting `a + c + b` for separator-free `a` peels off `a`. */
  lemma SplitLine(a: string, b: string, c: char)
    requires c !in a
    ensures Split(a + [c] + b, c) == [a] + Split(b, c)
  {
    var cb := [c] + b;
    SplitPrefix(a, cb, c);
    assert a + [c] + b == a + cb;
    assert cb[1..] == b && cb[0] == c;
    var rest := Split(b, c);
    var pieces := Split(cb, c);
    assert pieces == [[]] + rest;
    assert pieces[0] == [] && pieces[1..] == rest;
    assert a + pieces[0] == a;
  }

  /** The last piece of `xs` fused with the first of `ys`. */
  function Fuse(xs: seq<string>, ys: seq<string>): (r: seq<string>)
    requires |xs| > 0 && |ys| > 0
    ensures |r| == |xs| + |ys| - 1
  {
    xs[..|xs| - 1] + [xs[|xs| - 1] + ys[0]] + ys[1..]
  }

  /** Splitting a concatenation: the last piece of `a` and the first piece
      of `b` fuse into one. */
  lemma {:induction false} SplitAppend(a: string, b: string, c: char)
    ensures Split(a + b, c) == Fuse(Split(a, c), Split(b, c))
    decreases |a|
  {
    var sb := Split(b, c);
    if |a| == 0 {
      assert a + b == b;
      assert Split(a, c) == [[]];
      assert [] + sb[0] == sb[0];
      assert sb == [sb[0]] + sb[1..];
    } else {
      var a' := a[1..];
      SplitAppend(a', b, c);
      assert (a + b)[0] == a[0] && (a + b)[1..] == a' + b;
      if a[0] == c {
        FuseConsEmpty(Split(a', c), sb);
      } else {
        FuseConsChar(a[0], Split(a', c), sb);
      }
    }
  }

  lemma FuseConsEmpty(xs: seq<string>, ys: seq<string>)
    requires |xs| > 0 && |ys| > 0
    ensures [[]] + Fuse(xs, ys) == Fuse([[]] + xs, ys)
  {
    assert ([[]] + xs)[..|xs|] == [[]] + xs[..|xs| - 1];
  }

  lemma FuseConsChar(x: char, xs: seq<string>, ys: seq<string>)
    requires |xs| > 0 && |ys| > 0
    ensures var f := Fuse(xs, ys);
      [[x] + f[0]] + f[1..] == Fuse([[x] + xs[0]] + xs[1..], ys)
  {
    var f := Fuse(xs, ys);
    var xs' := [[x] + xs[0]] + xs[1..];
    if |xs| == 1 {
      assert f == [xs[0] + ys[0]] + ys[1..];
      assert [x] + (xs[0] + ys[0]) == [x] + xs[0] + ys[0];
    } else {
      assert f[0] == xs[0];
      assert f[1..] == xs[1..|xs| - 1] + [xs[|xs| - 1] + ys[0]] + ys[1..];
      assert xs'[..|xs'| - 1] == [[x] + xs[0]] + xs[1..|xs| - 1];
    }
  }

  /** Appending separator-free text extends the last piece. */
  lemma SplitThenText(a: string, b: string, c: char)
    requires c !in b
    ensures var sa := Split(a, c); Split(a + b, c) == sa[..|sa| - 1] + [sa[|sa| - 1] + b]
  {
    SplitAppend(a, b, c);
    SplitNone(b, c);
  }

  /** Appending a separator opens an empty last piece. */
  lemma SplitThenSep(a: string, c: char)
    ensures Split(a + [c], c) == Split(a, c) + [[]]
  {
    SplitAppend(a, [c], c);
    assert [c][1..] == [];
    assert Split([c], c) == [[], []];
    var sa := Split(a, c);
    assert sa[|sa| - 1] + [] == sa[|sa| - 1];
    assert sa[..|sa| - 1] + [sa[|sa| - 1]] == sa;
  }

  /** Splitting around one separator: the pieces of both sides, in order. */
  lemma SplitAround(a: string, b: string, c: char)
    ensures Split(a + [c] + b, c) == Split(a, c) + Split(b, c)
  {
    SplitThenSep(a, c);
    SplitAppend(a + [c], b, c);
    FuseAfterEmpty(Split(a, c), Split(b, c));
  }

  /** Fusing after an empty last piece just concatenates. */
  lemma FuseAfterEmpty(xs: seq<string>, ys: seq<string>)
    requires |ys| > 0
    ensures Fuse(xs + [[]], ys) == xs + ys
  {
    assert (xs + [[]])[..|xs|] == xs;
    assert [] + ys[0] == ys[0];
    assert [ys[0]] + ys[1..] == ys;
  }


  /** A separator-free string is one piece. */
  lemma SplitNone(a: string, c: char)
    requires c !in a
    ensures Split(a, c) == [a]
  {
    SplitPrefix(a, [], c);
    assert a + [] == a;
  }

  /** Splitting a join of separator-free pieces recovers them. */
  lemma {:induction false} SplitJoin(xs: seq<string>, c: char)
    requires |xs| > 0
    requires forall i :: 0 <= i < |xs| ==> c !in xs[i]
    ensures Split(Join(xs, [c]), c) == xs
    decreases |xs|
  {
    if |xs| == 1 {
      SplitNone(xs[0], c);
    } else {
      var tail := Join(xs[1..], [c]);
      assert Join(xs, [c]) == xs[0] + [c] + tail;
      SplitLine(xs[0], tail, c);
      SplitJoin(xs[1..], c);
      assert [xs[0]] + xs[1..] == xs;
    }
  }

  // ---------------------------------------------------------------------
  // `str.count`: non-overlapping occurrences, scanning left to right
  // ---------------------------------------------------------------------

  /** Python's `s.count(pat)`: after each match the scan resumes past it.
      An empty pattern is counted at every one of the `|s| + 1` gaps. */
  function CountNonOverlapping(s: string, pat: string): (r: nat)
    ensures |pat| > 0 ==> r * |pat| <= |s|
    ensures |pat| == 0 ==> r == |s| + 1
    decreases |s|
  {
    if |pat| == 0 then |s| + 1
    else if |s| < |pat| then 0
    else if s[..|pat|] == pat then
      var rest := CountNonOverlapping(s[|pat|..], pat);
      MulSucc(rest, |pat|);
      1 + rest
    else CountNonOverlapping(s[1..], pat)
  }

  /** One more match adds one pattern length. */
  lemma MulSucc(a: nat, b: nat)
    ensures (a + 1) * b == a * b + b
  {
  }

  /** The count is zero exactly when the pattern does not occur. */
  lemma {:induction false} CountZeroIff(s: string, pat: string)
    requires |pat| > 0
    ensures CountNonOverlapping(s, pat) == 0 <==> !Occurs(s, pat)
    decreases |s|
  {
    if |s| < |pat| {
      assert !Occurs(s, pat);
    } else if s[..|pat|] == pat {
      assert MatchAt(s, pat, 0);
    } else {
      var t := s[1..];
      CountZeroIff(t, pat);
      if Occurs(s, pat) {
        var i :| MatchAt(s, pat, i);
        MatchShift(s, pat, i);
      }
      if Occurs(t, pat) {
        var i :| MatchAt(t, pat, i);
        MatchShift(s, pat, i + 1);
      }
    }
  }

  /** A match past index 0 of `s` is a match one earlier in `s[1..]`. */
  lemma MatchShift(s: string, pat: string, i: int)
    requires |s| > 0 && i > 0
    ensures MatchAt(s, pat, i) <==> MatchAt(s[1..], pat, i - 1)
  {
    if 0 < i <= |s| - |pat| {
      assert s[1..][i - 1..i - 1 + |pat|] == s[i..i + |pat|];
    }
  }

  /** A match inside the infix `s[i..j]` is a match in `s`. */
  lemma MatchInInfix(s: string, pat: string, i: nat, j: nat, k: int)
    requires i <= j <= |s|
    requires MatchAt(s[i..j], pat, k)
    ensures MatchAt(s, pat, i + k)
  {
    var n := |pat|;
    var t := s[i..j];
    var a := t[k..k + n];
    var b := s[i + k..i + k + n];
    forall m | 0 <= m < n ensures a[m] == b[m] {
      assert t[k + m] == s[i + k + m];
    }
    assert a == b;
  }

  /** A match at or past index `d` of `s` is a match `d` earlier in `s[d..]`. */
  lemma MatchInSuffix(s: string, pat: string, d: nat, i: int)
    requires d <= |s| && d <= i
    ensures MatchAt(s, pat, i) <==> MatchAt(s[d..], pat, i - d)
  {
    if i <= |s| - |pat| {
      assert s[d..][i - d..i - d + |pat|] == s[i..i + |pat|];
    }
  }

  /** The reference reading of `str.count`: `ps` lists start positions of
      copies of `pat` in `s`, in increasing order, no two overlapping. */
  ghost predicate NonOverlapping(s: string, pat: string, ps: seq<int>) {
    && (forall k :: 0 <= k < |ps| ==> MatchAt(s, pat, ps[k]))
    && (forall j, k :: 0 <= j < k < |ps| ==> ps[j] + |pat| <= ps[k])
  }

  /** Every position moved by `d`. */
  function Shift(ps: seq<int>, d: int): (r: seq<int>)
    ensures |r| == |ps|
    ensures forall k :: 0 <= k < |ps| ==> r[k] == ps[k] + d
  {
    seq(|ps|, k requires 0 <= k < |ps| => ps[k] + d)
  }

  /** Matches in `s[d..]` are matches in `s`, `d` further on. */
  lemma ShiftUp(s: string, pat: string, d: nat, ps: seq<int>)
    requires d <= |s|
    requires NonOverlapping(s[d..], pat, ps)
    ensures NonOverlapping(s, pat, Shift(ps, d))
    ensures forall k :: 0 <= k < |ps| ==> d <= Shift(ps, d)[k]
  {
    var qs := Shift(ps, d);
    forall k | 0 <= k < |ps| ensures MatchAt(s, pat, qs[k]) {
      MatchInSuffix(s, pat, d, qs[k]);
    }
  }

  /** Matches of `s` at or past `d` are matches in `s[d..]`. */
  lemma ShiftDown(s: string, pat: string, d: int, ps: seq<int>)
    requires 0 <= d <= |s|
    requires NonOverlapping(s, pat, ps)
    requires forall k :: 0 <= k < |ps| ==> d <= ps[k]
    ensures NonOverlapping(s[d..], pat, Shift(ps, -d))
  {
    var qs := Shift(ps, -d);
    forall k | 0 <= k < |ps| ensures MatchAt(s[d..], pat, qs[k]) {
      MatchInSuffix(s, pat, d, ps[k]);
    }
  }

  /** A match at the front, then matches that start past it. */
  lemma ConsMatch(s: string, pat: string, qs: seq<int>)
    requires MatchAt(s, pat, 0)
    requires NonOverlapping(s, pat, qs)
    requires forall k :: 0 <= k < |qs| ==> |pat| <= qs[k]
    ensures NonOverlapping(s, pat, [0] + qs)
  {
    var ps := [0] + qs;
    forall j, k | 0 <= j < k < |ps| ensures ps[j] + |pat| <= ps[k] {
      assert ps[k] == qs[k - 1];
      if j > 0 {
        assert ps[j] == qs[j - 1];
      }
    }
  }

  /** The left-to-right scan finds as many non-overlapping matches as it
      counts: here they are. */
  lemma {:induction false} CountAchieved(s: string, pat: string) returns (ps: seq<int>)
    requires |pat| > 0
    ensures NonOverlapping(s, pat, ps)
    ensures |ps| == CountNonOverlapping(s, pat)
    decreases |s|
  {
    if |s| < |pat| {
      ps := [];
    } else if s[..|pat|] == pat {
      var rest := CountAchieved(s[|pat|..], pat);
      ShiftUp(s, pat, |pat|, rest);
      ConsMatch(s, pat, Shift(rest, |pat|));
      ps := [0] + Shift(rest, |pat|);
    } else {
      var rest := CountAchieved(s[1..], pat);
      ShiftUp(s, pat, 1, rest);
      ps := Shift(rest, 1);
    }
  }

  /** The first listed match comes before all others, and the rest start
      past its end. */
  lemma FirstMatchFirst(s: string, pat: string, ps: seq<int>)
    requires NonOverlapping(s, pat, ps) && |ps| > 0
    ensures MatchAt(s, pat, ps[0])
    ensures forall k :: 0 <= k < |ps| ==> ps[0] <= ps[k]
    ensures NonOverlapping(s, pat, ps[1..])
    ensures forall k :: 0 <= k < |ps| - 1 ==> ps[0] + |pat| <= ps[1..][k]
  {
    forall k | 0 < k < |ps| ensures ps[0] + |pat| <= ps[k] {
    }
  }

  /** No set of non-overlapping matches is larger than the scan's count. */
  lemma {:induction false} CountIsMaximal(s: string, pat: string, ps: seq<int>)
    requires |pat| > 0
    requires NonOverlapping(s, pat, ps)
    ensures |ps| <= CountNonOverlapping(s, pat)
    decreases |s|
  {
    if |ps| > 0 {
      FirstMatchFirst(s, pat, ps);
      if s[..|pat|] == pat {
        ShiftDown(s, pat, |pat|, ps[1..]);
        CountIsMaximal(s[|pat|..], pat, Shift(ps[1..], -(|pat| as int)));
      } else {
        assert ps[0] != 0;
        ShiftDown(s, pat, 1, ps);
        CountIsMaximal(s[1..], pat, Shift(ps, -1));
      }
    }
  }

  /** `str.count` with a non-empty pattern is the largest number of
      non-overlapping copies of the pattern in the text. */
  lemma CountIsMaximum(s: string, pat: string)
    requires |pat| > 0
    ensures exists ps :: NonOverlapping(s, pat, ps) && |ps| == CountNonOverlapping(s, pat)
    ensures forall ps :: NonOverlapping(s, pat, ps) ==> |ps| <= CountNonOverlapping(s, pat)
  {
    var ps := CountAchieved(s, pat);
    forall qs | NonOverlapping(s, pat, qs) ensures |qs| <= CountNonOverlapping(s, pat) {
      CountIsMaximal(s, pat, qs);
    }
  }

  /** Copies that share their separating space are counted once: two
      joins with one space between them count 1, with two spaces 2. */
  lemma CountJoinExamples()
    ensures CountNonOverlapping(" JOIN JOIN ", " JOIN ") == 1
    ensures CountNonOverlapping(" JOIN  JOIN ", " JOIN ") == 2
  {
    assert " JOIN JOIN "[6..] == "JOIN ";
    assert " JOIN  JOIN "[6..] == " JOIN ";
  }

  // ---------------------------------------------------------------------
  // Decimal rendering of counters (f-string `{n}`)
  // ---------------------------------------------------------------------

  function DigitChar(d: nat): (c: char)
    requires d < 10
    ensures IsDigit(c)
  {
    ('0' as int + d) as char
  }

  /** Canonical decimal: non-empty, all digits, no leading zero. */
  function NatToString(n: nat): (r: string)
    ensures |r| > 0 && AllDigits(r)
    ensures r[0] == '0' ==> n == 0
    decreases n
  {
    if n < 10 then [DigitChar(n)]
    else NatToString(n / 10) + [DigitChar(n % 10)]
  }

  /** The value of a string of decimal digits. */
  function DigitsValue(s: string): nat
    requires AllDigits(s)
    decreases |s|
  {
    if |s| == 0 then 0
    else DigitsValue(s[..|s| - 1]) * 10 + (s[|s| - 1] as int - '0' as int)
  }

  /** Reading back a rendered number gives the number. */
  lemma {:induction false} DigitsValueOfNatToString(n: nat)
    ensures DigitsValue(NatToString(n)) == n
    decreases n
  {
    if n >= 10 {
      DigitsValueOfNatToString(n / 10);
      var s := NatToString(n);
      assert s[..|s| - 1] == NatToString(n / 10);
    }
  }

  /** Number of leading decimal digits. */
  function LeadingDigits(s: string): (k: nat)
    ensures k <= |s| && AllDigits(s[..k])
    ensures k == |s| || !IsDigit(s[k])
    decreases |s|
  {
    if |s| > 0 && IsDigit(s[0]) then
      var k := 1 + LeadingDigits(s[1..]);
      assert s[..k] == [s[0]] + s[1..][..k - 1];
      k
    else 0
  }

  lemma {:induction false} LeadingDigitsOf(d: string, rest: string)
    requires AllDigits(d)
    requires rest == [] || !IsDigit(rest[0])
    ensures LeadingDigits(d + rest) == |d|
    decreases |d|
  {
    if |d| > 0 {
      assert (d + rest)[1..] == d[1..] + rest;
      LeadingDigitsOf(d[1..], rest);
    } else {
      assert d + rest == rest;
    }
  }
}
