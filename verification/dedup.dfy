/** The de-duplication loop of `compose_llm_prompt` (app.py lines 136-147):
    walk the findings in order, drop missing or empty picks, key each pick
    by `strip().upper()`, and keep a pick only if its key has not been seen.
    The loop is modelled as a recursion carrying the set of seen keys. Its
    properties hold for any key function, so the loop and its lemmas take
    the key as a parameter; the unit's chosen snippets use `Key`. */
module Dedup {
  import opened Wrappers
  import opened Strings
  import opened Types
  import opened Selector

  /** `sql.strip().upper()`: no outer whitespace and no lower-case
      letter, so picks that differ only in those share a key. */
  function Key(s: string): (r: string)
    ensures |r| <= |s|
    ensures r == [] || (!IsSpace(r[0]) && !IsSpace(r[|r| - 1]))
    ensures forall i :: 0 <= i < |r| ==> !('a' <= r[i] <= 'z')
  {
    Upper(Trim(s))
  }

  ghost function KeySet(key: string -> string, xs: seq<string>): set<string> {
    set x | x in xs :: key(x)
  }

  /** The pick of every finding, in finding order. */
  function Selections(findings: seq<FindingIn>): (r: seq<Option<string>>)
    ensures |r| == |findings|
  {
    seq(|findings|, i requires 0 <= i < |findings| => ChooseBestSql(findings[i]))
  }

  /** The picks that survive `if not sql: continue`, in order: exactly
      the non-empty picks, none of them empty, at most one per finding. */
  function Candidates(sels: seq<Option<string>>): (r: seq<string>)
    ensures |r| <= |sels|
    ensures forall i :: 0 <= i < |r| ==> r[i] != []
    ensures forall x :: x in r <==> x != [] && Some(x) in sels
    decreases |sels|
  {
    if |sels| == 0 then []
    else
      var rest := Candidates(sels[1..]);
      assert sels == [sels[0]] + sels[1..];
      if sels[0].Some? && sels[0].value != [] then [sels[0].value] + rest
      else rest
  }

  /** `a` is `b` with some elements left out, order kept. */
  predicate IsSubsequence(a: seq<string>, b: seq<string>)
    decreases |b|
  {
    |a| == 0 || (|b| > 0 && ((a[0] == b[0] && IsSubsequence(a[1..], b[1..])) || IsSubsequence(a, b[1..])))
  }

  /** The first candidate whose key is `k`. */
  function FirstWithKey(key: string -> string, xs: seq<string>, k: string): Option<string>
    decreases |xs|
  {
    if |xs| == 0 then None
    else if key(xs[0]) == k then Some(xs[0])
    else FirstWithKey(key, xs[1..], k)
  }

  /** The loop body run over `sels` with `seen` already filled: the kept
      picks are an order-preserving selection of the candidates, non-empty,
      with pairwise different keys none of which was seen before. */
  function DedupFrom(key: string -> string, sels: seq<Option<string>>, seen: set<string>): (r: seq<string>)
    ensures IsSubsequence(r, Candidates(sels))
    ensures forall i :: 0 <= i < |r| ==> r[i] != [] && key(r[i]) !in seen
    ensures forall i, j :: 0 <= i < j < |r| ==> key(r[i]) != key(r[j])
    decreases |sels|
  {
    if |sels| == 0 then []
    else
      var rest := sels[1..];
      if sels[0].None? || sels[0].value == [] then
        DedupFrom(key, rest, seen)
      else
        var sql := sels[0].value;
        var k := key(sql);
        if k in seen then
          DedupFrom(key, rest, seen)
        else
          [sql] + DedupFrom(key, rest, seen + {k})
  }

  /** `chosen_snippets` after the loop. */
  function ChosenSnippets(findings: seq<FindingIn>): seq<string> {
    DedupFrom(Key, Selections(findings), {})
  }

  // ---------------------------------------------------------------------
  // First occurrences
  // ---------------------------------------------------------------------

  /** Every element of `r` is the first of `cands` carrying its key. */
  ghost predicate FirstOfKeys(key: string -> string, r: seq<string>, cands: seq<string>) {
    forall i :: 0 <= i < |r| ==> FirstWithKey(key, cands, key(r[i])) == Some(r[i])
  }

  /** Each kept pick is the first candidate carrying its key: the loop
      keeps first occurrences, never a later duplicate. */
  lemma {:induction false} DedupKeepsFirst(key: string -> string, sels: seq<Option<string>>, seen: set<string>)
    ensures FirstOfKeys(key, DedupFrom(key, sels, seen), Candidates(sels))
    decreases |sels|
  {
    if |sels| > 0 {
      var rest := sels[1..];
      if sels[0].None? || sels[0].value == [] {
        assert DedupFrom(key, sels, seen) == DedupFrom(key, rest, seen);
        assert Candidates(sels) == Candidates(rest);
        DedupKeepsFirst(key, rest, seen);
      } else {
        var sql := sels[0].value;
        var k := key(sql);
        assert Candidates(sels) == [sql] + Candidates(rest);
        if k in seen {
          var r := DedupFrom(key, rest, seen);
          assert DedupFrom(key, sels, seen) == r;
          DedupKeepsFirst(key, rest, seen);
          FirstPastOther(key, sql, Candidates(rest), r);
        } else {
          var tail := DedupFrom(key, rest, seen + {k});
          assert DedupFrom(key, sels, seen) == [sql] + tail;
          DedupKeepsFirst(key, rest, seen + {k});
          FirstPastOther(key, sql, Candidates(rest), tail);
          FirstOfCons(key, sql, Candidates(rest), tail);
        }
      }
    }
  }

  /** Putting a candidate with a different key in front does not change
      which candidate comes first for the keys of `xs`. */
  lemma FirstPastOther(key: string -> string, sql: string, cands: seq<string>, xs: seq<string>)
    requires forall i :: 0 <= i < |xs| ==> key(xs[i]) != key(sql)
    requires FirstOfKeys(key, xs, cands)
    ensures FirstOfKeys(key, xs, [sql] + cands)
  {
    assert ([sql] + cands)[1..] == cands;
  }

  /** The kept case: the new pick leads, followed by picks that were already
      first for their keys. */
  lemma FirstOfCons(key: string -> string, sql: string, cands: seq<string>, xs: seq<string>)
    requires FirstOfKeys(key, xs, [sql] + cands)
    ensures FirstOfKeys(key, [sql] + xs, [sql] + cands)
  {
    var r := [sql] + xs;
    forall i | 0 <= i < |r| ensures FirstWithKey(key, [sql] + cands, key(r[i])) == Some(r[i]) {
      if i > 0 {
        assert r[i] == xs[i - 1];
      }
    }
  }

  // ---------------------------------------------------------------------
  // Coverage
  // ---------------------------------------------------------------------

  lemma KeySetCons(key: string -> string, x: string, xs: seq<string>)
    ensures KeySet(key, [x] + xs) == {key(x)} + KeySet(key, xs)
  {
    assert forall y :: y in [x] + xs <==> y == x || y in xs;
  }

  /** The keys kept are exactly the candidates' keys that had not been
      seen. */
  lemma {:induction false} DedupKeys(key: string -> string, sels: seq<Option<string>>, seen: set<string>)
    ensures KeySet(key, DedupFrom(key, sels, seen)) == KeySet(key, Candidates(sels)) - seen
    decreases |sels|
  {
    if |sels| > 0 {
      var rest := sels[1..];
      if sels[0].None? || sels[0].value == [] {
        DedupKeys(key, rest, seen);
      } else {
        var sql := sels[0].value;
        var k := key(sql);
        KeySetCons(key, sql, Candidates(rest));
        if k in seen {
          DedupKeys(key, rest, seen);
        } else {
          DedupKeys(key, rest, seen + {k});
          KeySetCons(key, sql, DedupFrom(key, rest, seen + {k}));
        }
      }
    }
  }

  /** Every candidate's key appears among the kept picks. */
  lemma Coverage(key: string -> string, sels: seq<Option<string>>, x: string)
    requires x in Candidates(sels)
    ensures exists y :: y in DedupFrom(key, sels, {}) && key(y) == key(x)
  {
    DedupKeys(key, sels, {});
    assert key(x) in KeySet(key, Candidates(sels));
    assert key(x) in KeySet(key, DedupFrom(key, sels, {}));
  }

  // ---------------------------------------------------------------------
  // Idempotence
  // ---------------------------------------------------------------------

  /** Strings as present picks, the shape the loop consumes. */
  function Lift(xs: seq<string>): (r: seq<Option<string>>)
    ensures |r| == |xs|
    ensures forall i :: 0 <= i < |xs| ==> r[i] == Some(xs[i])
  {
    seq(|xs|, i requires 0 <= i < |xs| => Some(xs[i]))
  }

  /** Picks that are non-empty, pairwise key-distinct and unseen pass
      through the loop unchanged. */
  lemma {:induction false} DedupOfDistinct(key: string -> string, xs: seq<string>, seen: set<string>)
    requires forall i :: 0 <= i < |xs| ==> xs[i] != [] && key(xs[i]) !in seen
    requires forall i, j :: 0 <= i < j < |xs| ==> key(xs[i]) != key(xs[j])
    ensures DedupFrom(key, Lift(xs), seen) == xs
    decreases |xs|
  {
    if |xs| > 0 {
      var k := key(xs[0]);
      var tail := xs[1..];
      var seen' := seen + {k};
      assert Lift(xs)[1..] == Lift(tail);
      forall i | 0 <= i < |tail| ensures tail[i] != [] && key(tail[i]) !in seen' {
        assert tail[i] == xs[i + 1];
      }
      forall i, j | 0 <= i < j < |tail| ensures key(tail[i]) != key(tail[j]) {
        assert tail[i] == xs[i + 1] && tail[j] == xs[j + 1];
      }
      DedupOfDistinct(key, tail, seen');
      assert DedupFrom(key, Lift(xs), seen) == [xs[0]] + DedupFrom(key, Lift(tail), seen');
      assert xs == [xs[0]] + tail;
    }
  }

  /** Running the loop again over its own output changes nothing. */
  lemma DedupIdempotent(key: string -> string, sels: seq<Option<string>>)
    ensures DedupFrom(key, Lift(DedupFrom(key, sels, {})), {}) == DedupFrom(key, sels, {})
  {
    DedupOfDistinct(key, DedupFrom(key, sels, {}), {});
  }

  // ---------------------------------------------------------------------
  // Shape of a unit's chosen snippets
  // ---------------------------------------------------------------------

  /** A subsequence is never longer. */
  lemma {:induction false} SubsequenceNoLonger(a: seq<string>, b: seq<string>)
    requires IsSubsequence(a, b)
    ensures |a| <= |b|
    decreases |b|
  {
    if |a| > 0 {
      if a[0] == b[0] && IsSubsequence(a[1..], b[1..]) {
        SubsequenceNoLonger(a[1..], b[1..]);
      } else {
        SubsequenceNoLonger(a, b[1..]);
      }
    }
  }

  lemma {:induction false} SubsequenceMembers(a: seq<string>, b: seq<string>, x: string)
    requires IsSubsequence(a, b) && x in a
    ensures x in b
    decreases |b|
  {
    if a[0] == b[0] && IsSubsequence(a[1..], b[1..]) {
      if x != a[0] {
        assert x in a[1..];
        SubsequenceMembers(a[1..], b[1..], x);
      }
    } else {
      SubsequenceMembers(a, b[1..], x);
    }
  }

  /** The loop keeps no more picks than it is given, and each kept pick is
      one of them. */
  lemma DedupShape(key: string -> string, sels: seq<Option<string>>)
    ensures |DedupFrom(key, sels, {})| <= |sels|
    ensures forall x :: x in DedupFrom(key, sels, {}) ==> Some(x) in sels
  {
    var chosen := DedupFrom(key, sels, {});
    SubsequenceNoLonger(chosen, Candidates(sels));
    forall x | x in chosen ensures Some(x) in sels {
      SubsequenceMembers(chosen, Candidates(sels), x);
    }
  }

  /** Some finding's pick is `x`. */
  ghost predicate PickedBy(findings: seq<FindingIn>, x: string) {
    exists i :: 0 <= i < |findings| && ChooseBestSql(findings[i]) == Some(x)
  }

  lemma SelectionPick(findings: seq<FindingIn>, x: string)
    requires Some(x) in Selections(findings)
    ensures PickedBy(findings, x)
  {
    var sels := Selections(findings);
    var i :| 0 <= i < |sels| && sels[i] == Some(x);
    assert ChooseBestSql(findings[i]) == Some(x);
  }

  /** The chosen snippets of a unit: no more than its findings, each the
      pick of some finding, with pairwise different keys. */
  lemma ChosenSnippetsShape(findings: seq<FindingIn>)
    ensures |ChosenSnippets(findings)| <= |findings|
    ensures forall x :: x in ChosenSnippets(findings) ==> PickedBy(findings, x)
    ensures forall i, j :: 0 <= i < j < |ChosenSnippets(findings)|
              ==> Key(ChosenSnippets(findings)[i]) != Key(ChosenSnippets(findings)[j])
  {
    var sels := Selections(findings);
    DedupShape(Key, sels);
    forall x | x in ChosenSnippets(findings) ensures PickedBy(findings, x) {
      SelectionPick(findings, x);
    }
  }
}
