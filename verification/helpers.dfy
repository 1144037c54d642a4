/** The text helpers of the prompt builder (app.py lines 51-64): the
    normaliser applied to both remediation candidates, and the two regex
    classifiers `^\s*SELECT\b` and `\bdraft\s*=\s*`, both case-insensitive.
    Each classifier is an executable scan paired with the regex's
    match-position reading, and the two are proved equivalent. */
module Helpers {
  import opened Wrappers
  import opened Strings

  // ---------------------------------------------------------------------
  // _normalize_text
  // ---------------------------------------------------------------------

  /** The four characters backslash, 'r', backslash, 'n': a CR LF pair that
      arrived escaped instead of as a real line break. */
  const CrLfEscape: string := "\\r\\n"

  /** `s.replace("\\r\\n", "\n")`: each escaped CR LF, taken left to right
      without overlap, becomes one real line feed. */
  function ReplaceCrLfEscapes(s: string): (r: string)
    ensures |r| <= |s|
    decreases |s|
  {
    if |s| < 4 then s
    else if s[..4] == CrLfEscape then "\n" + ReplaceCrLfEscapes(s[4..])
    else [s[0]] + ReplaceCrLfEscapes(s[1..])
  }

  /** Inverse of the replacement on line-feed-free input: every line feed
      goes back to the escape it came from. */
  function RestoreCrLfEscapes(t: string): (s: string)
    ensures '\n' !in s
    decreases |t|
  {
    if |t| == 0 then []
    else (if t[0] == '\n' then CrLfEscape else [t[0]]) + RestoreCrLfEscapes(t[1..])
  }

  /** `_normalize_text`: `None` or "" give "", anything else has its escaped
      CR LF pairs turned into line feeds and is then stripped. */
  function NormalizeText(s: Option<string>): (r: string)
    ensures s.None? ==> r == []
    ensures |r| <= |OrEmpty(s)|
    ensures r == [] || (!IsSpace(r[0]) && !IsSpace(r[|r| - 1]))
  {
    if s.None? || s.value == [] then []
    else Trim(ReplaceCrLfEscapes(s.value))
  }

  /** What normalisation keeps: the replaced text between two all-whitespace
      margins. With the ends of the result not being whitespace, this pins
      the result down as the replaced text with its outer whitespace cut. */
  lemma NormalizeIsInfix(s: Option<string>) returns (i: nat)
    ensures var t, r := ReplaceCrLfEscapes(OrEmpty(s)), NormalizeText(s);
      && i + |r| <= |t| && r == t[i..i + |r|]
      && AllSpace(t[..i]) && AllSpace(t[i + |r|..])
  {
    if s.None? || s.value == [] {
      NormalizeNothing(s);
      i := 0;
    } else {
      NormalizeSome(s.value);
      i := TrimIsInfix(ReplaceCrLfEscapes(s.value));
    }
  }

  lemma NormalizeNothing(s: Option<string>)
    requires s.None? || s.value == []
    ensures ReplaceCrLfEscapes(OrEmpty(s)) == [] && NormalizeText(s) == []
  {
  }

  lemma NormalizeSome(x: string)
    requires x != []
    ensures NormalizeText(Some(x)) == Trim(ReplaceCrLfEscapes(x))
  {
  }

  /** The first `k` characters of the replacement output either contain a
      line feed or were copied unchanged from the input. */
  lemma {:induction false} ReplacePrefixCopied(u: string, k: nat)
    requires k <= |ReplaceCrLfEscapes(u)|
    ensures '\n' in ReplaceCrLfEscapes(u)[..k]
            || (k <= |u| && u[..k] == ReplaceCrLfEscapes(u)[..k])
    decreases |u|
  {
    var r := ReplaceCrLfEscapes(u);
    if k > 0 && |u| >= 4 {
      if u[..4] == CrLfEscape {
        assert r[..k][0] == '\n';
      } else {
        var r' := ReplaceCrLfEscapes(u[1..]);
        assert r == [u[0]] + r';
        assert r[..k] == [u[0]] + r'[..k - 1];
        ReplacePrefixCopied(u[1..], k - 1);
        assert u[..k] == [u[0]] + u[1..][..k - 1];
      }
    }
  }

  /** No escaped CR LF survives the replacement. */
  lemma {:induction false} NoEscapeAfterReplace(s: string)
    ensures !Occurs(ReplaceCrLfEscapes(s), CrLfEscape)
    decreases |s|
  {
    var r := ReplaceCrLfEscapes(s);
    if |s| < 4 {
      assert !Occurs(s, CrLfEscape) by {
        forall i | MatchAt(s, CrLfEscape, i) ensures false {
        }
      }
    } else {
      var t := s[if s[..4] == CrLfEscape then 4 else 1..];
      var r' := ReplaceCrLfEscapes(t);
      NoEscapeAfterReplace(t);
      assert r[1..] == r';
      if MatchAt(r, CrLfEscape, 0) {
        assert s[..4] != CrLfEscape;
        assert r'[..3] == r[1..4] == "r\\n";
        ReplacePrefixCopied(t, 3);
        assert false;
      }
      forall i | 0 < i && MatchAt(r, CrLfEscape, i) ensures false {
        MatchShift(r, CrLfEscape, i);
      }
      assert !Occurs(r, CrLfEscape);
    }
  }

  /** Text without escaped CR LF pairs is left alone by the replacement. */
  lemma {:induction false} ReplaceNoEscape(s: string)
    requires !Occurs(s, CrLfEscape)
    ensures ReplaceCrLfEscapes(s) == s
    decreases |s|
  {
    if |s| >= 4 {
      assert !MatchAt(s, CrLfEscape, 0);
      assert !Occurs(s[1..], CrLfEscape) by {
        forall i | MatchAt(s[1..], CrLfEscape, i) ensures false {
          MatchShift(s, CrLfEscape, i + 1);
        }
      }
      ReplaceNoEscape(s[1..]);
    }
  }

  /** Text in front of the first escape is copied unchanged. */
  lemma {:induction false} CopyBeforeFirstEscape(a: string, t: string)
    requires forall i :: 0 <= i < |a| ==> !MatchAt(a + t, CrLfEscape, i)
    ensures ReplaceCrLfEscapes(a + t) == a + ReplaceCrLfEscapes(t)
    decreases |a|
  {
    var s := a + t;
    if |a| > 0 {
      if |s| < 4 {
        assert ReplaceCrLfEscapes(t) == t;
      } else {
        assert !MatchAt(s, CrLfEscape, 0);
        assert s[1..] == a[1..] + t;
        forall i | 0 <= i < |a| - 1 ensures !MatchAt(a[1..] + t, CrLfEscape, i) {
          MatchShift(s, CrLfEscape, i + 1);
        }
        CopyBeforeFirstEscape(a[1..], t);
        assert [a[0]] + a[1..] == a;
      }
    } else {
      assert a + t == t;
    }
  }

  /** `str.replace` at work: the first escape, wherever `str.find` puts it,
      becomes one line feed, the text before it is kept, and the replacement
      carries on after it. With `ReplaceNoEscape` for text without an escape
      this determines the replacement on every input. */
  lemma ReplaceAtFirstEscape(a: string, b: string)
    requires IndexOf(a + CrLfEscape + b, CrLfEscape) == |a|
    ensures ReplaceCrLfEscapes(a + CrLfEscape + b) == a + "\n" + ReplaceCrLfEscapes(b)
  {
    var t := CrLfEscape + b;
    assert a + CrLfEscape + b == a + t;
    CopyBeforeFirstEscape(a, t);
    assert t[..4] == CrLfEscape && t[4..] == b;
  }

  /** Real and escaped line breaks mixed: the escape becomes a second real
      line feed and the real one is kept. */
  lemma MixedLineBreaks()
    ensures ReplaceCrLfEscapes("a\n\\r\\nb") == "a\n\nb"
  {
    var s := "a\n" + CrLfEscape + "b";
    assert s == "a\n\\r\\nb";
    assert s[0] == 'a' && s[1] == '\n' && s[2..6] == CrLfEscape;
    assert MatchAt(s, CrLfEscape, 2) && !MatchAt(s, CrLfEscape, 0) && !MatchAt(s, CrLfEscape, 1);
    ReplaceAtFirstEscape("a\n", "b");
    assert ReplaceCrLfEscapes("b") == "b";
  }

  /** On text that had no real line feeds the replacement loses nothing:
      restoring the escapes gives the original back. */
  lemma {:induction false} RestoreAfterReplace(s: string)
    requires '\n' !in s
    ensures RestoreCrLfEscapes(ReplaceCrLfEscapes(s)) == s
    decreases |s|
  {
    if |s| >= 4 {
      var r := ReplaceCrLfEscapes(s);
      if s[..4] == CrLfEscape {
        RestoreAfterReplace(s[4..]);
        assert r[1..] == ReplaceCrLfEscapes(s[4..]);
        assert s == s[..4] + s[4..];
      } else {
        RestoreAfterReplace(s[1..]);
        assert r[1..] == ReplaceCrLfEscapes(s[1..]);
        assert s == [s[0]] + s[1..];
      }
    } else if |s| > 0 {
      RestoreUnchanged(s);
    }
  }

  lemma {:induction false} RestoreUnchanged(s: string)
    requires '\n' !in s
    ensures RestoreCrLfEscapes(s) == s
    decreases |s|
  {
    if |s| > 0 {
      RestoreUnchanged(s[1..]);
      assert s == [s[0]] + s[1..];
    }
  }

  /** A pattern absent from a string is absent from each of its infixes. */
  lemma NoOccurrenceInInfix(s: string, pat: string, i: nat, j: nat)
    requires i <= j <= |s|
    requires !Occurs(s, pat)
    ensures !Occurs(s[i..j], pat)
  {
    forall k | MatchAt(s[i..j], pat, k) ensures false {
      MatchInInfix(s, pat, i, j, k);
    }
  }

  /** The normalised text contains no escaped CR LF pair. */
  lemma NormalizedHasNoEscape(s: Option<string>)
    ensures !Occurs(NormalizeText(s), CrLfEscape)
  {
    if s.Some? && s.value != [] {
      var u := ReplaceCrLfEscapes(s.value);
      NoEscapeAfterReplace(s.value);
      TrimHasNoEscape(u);
    } else {
      assert NormalizeText(s) == [];
      assert !Occurs([], CrLfEscape) by {
        forall i | MatchAt([], CrLfEscape, i) ensures false {
        }
      }
    }
  }

  lemma TrimHasNoEscape(u: string)
    requires !Occurs(u, CrLfEscape)
    ensures !Occurs(Trim(u), CrLfEscape)
  {
    var i := TrimIsInfix(u);
    NoOccurrenceInInfix(u, CrLfEscape, i, i + |Trim(u)|);
  }

  /** Normalising normalised text changes nothing. */
  lemma NormalizeIdempotent(s: Option<string>)
    ensures NormalizeText(Some(NormalizeText(s))) == NormalizeText(s)
  {
    var r := NormalizeText(s);
    if r != [] {
      NormalizedHasNoEscape(s);
      ReplaceNoEscape(r);
      TrimLeftOfTrimmed(r);
      TrimRightOfTrimmed(r);
    }
  }

  // ---------------------------------------------------------------------
  // _looks_like_sql: ^\s*SELECT\b, case-insensitive
  // ---------------------------------------------------------------------

  const SelectWord: string := "SELECT"

  /** The regex matches with `\s*` consuming exactly `s[..k]`. */
  ghost predicate SqlStartAt(s: string, k: int) {
    0 <= k && k + 6 <= |s| && AllSpace(s[..k])
    && Upper(s[k..k + 6]) == SelectWord
    && (k + 6 == |s| || !IsWordChar(s[k + 6]))
  }

  /** `_looks_like_sql`: after the leading whitespace comes the word SELECT
      in any case, ended by a non-word character or the end of the text. */
  predicate LooksLikeSql(s: string) {
    var t := TrimLeft(s);
    |t| >= 6 && Upper(t[..6]) == SelectWord && (|t| == 6 || !IsWordChar(t[6]))
  }

  /** The scan agrees with the regex: some amount of leading whitespace is
      followed by the SELECT token. */
  lemma LooksLikeSqlIff(s: string)
    ensures LooksLikeSql(s) <==> exists k :: SqlStartAt(s, k)
  {
    if LooksLikeSql(s) {
      var k0 := LooksLikeSqlWitness(s);
    }
    if k :| SqlStartAt(s, k) {
      SqlStartAtScan(s, k);
    }
  }

  /** Where the scan finds SELECT, the regex matches too. */
  lemma LooksLikeSqlWitness(s: string) returns (k0: nat)
    requires LooksLikeSql(s)
    ensures SqlStartAt(s, k0)
  {
    var t := TrimLeft(s);
    k0 := |s| - |t|;
    assert t == s[k0..];
    assert AllSpace(s[..k0]);
    assert t[..6] == s[k0..k0 + 6];
    assert k0 + 6 < |s| ==> s[k0 + 6] == t[6];
  }

  /** Where the regex matches, the scan finds SELECT. */
  lemma SqlStartAtScan(s: string, k: int)
    requires SqlStartAt(s, k)
    ensures LooksLikeSql(s)
  {
    var t := TrimLeft(s);
    assert Upper(s[k..k + 6])[0] == 'S';
    assert !IsSpace(s[k]);
    TrimLeftAt(s, k);
    assert t == s[k..];
    assert t[..6] == s[k..k + 6];
  }

  // ---------------------------------------------------------------------
  // _has_draft: \bdraft\s*=\s*, case-insensitive
  // ---------------------------------------------------------------------

  const DraftWord: string := "DRAFT"

  /** `\bdraft` matches at `i`: a word boundary before it (the start of the
      text or a non-word character) and the five letters in any case. */
  predicate DraftWordAt(s: string, i: int) {
    0 <= i && i + 5 <= |s| && (i == 0 || !IsWordChar(s[i - 1]))
    && Upper(s[i..i + 5]) == DraftWord
  }

  /** `\s*=` matches at the start of `t`, by skipping all whitespace. */
  predicate EqualsAfterSpaces(t: string) {
    var u := TrimLeft(t);
    |u| > 0 && u[0] == '='
  }

  /** The regex reading of `\s*=` at the start of `t`: some whitespace run,
      then an equals sign. */
  ghost predicate SpacesThenEquals(t: string) {
    exists j :: 0 <= j < |t| && AllSpace(t[..j]) && t[j] == '='
  }

  /** Left-to-right search for a match starting at `i` or later. */
  predicate DraftSearch(s: string, i: nat)
    decreases |s| - i
  {
    if i + 5 > |s| then false
    else (DraftWordAt(s, i) && EqualsAfterSpaces(s[i + 5..])) || DraftSearch(s, i + 1)
  }

  /** `_has_draft`. */
  predicate HasDraft(s: string) {
    DraftSearch(s, 0)
  }

  /** The whole regex matches starting at `i`. */
  ghost predicate DraftMatchAt(s: string, i: int) {
    DraftWordAt(s, i) && SpacesThenEquals(s[i + 5..])
  }

  lemma EqualsAfterSpacesIff(t: string)
    ensures EqualsAfterSpaces(t) <==> SpacesThenEquals(t)
  {
    var u := TrimLeft(t);
    if EqualsAfterSpaces(t) {
      var j := |t| - |u|;
      assert t[j] == u[0];
    }
    if SpacesThenEquals(t) {
      var j :| 0 <= j < |t| && AllSpace(t[..j]) && t[j] == '=';
      TrimLeftAt(t, j);
    }
  }

  lemma {:induction false} DraftSearchIff(s: string, i: nat)
    ensures DraftSearch(s, i) <==> exists k :: i <= k && DraftMatchAt(s, k)
    decreases |s| - i
  {
    if i + 5 > |s| {
      assert forall k :: i <= k ==> !DraftMatchAt(s, k);
    } else {
      EqualsAfterSpacesIff(s[i + 5..]);
      DraftSearchIff(s, i + 1);
      if DraftSearch(s, i) {
        if DraftWordAt(s, i) && EqualsAfterSpaces(s[i + 5..]) {
          assert DraftMatchAt(s, i);
        }
      }
      if k :| i <= k && DraftMatchAt(s, k) {
        if k == i {
          assert DraftSearch(s, i);
        } else {
          assert i + 1 <= k;
        }
      }
    }
  }

  /** The scan agrees with the regex: a match starts somewhere. */
  lemma HasDraftIff(s: string)
    ensures HasDraft(s) <==> exists i :: DraftMatchAt(s, i)
  {
    DraftSearchIff(s, 0);
  }
}
