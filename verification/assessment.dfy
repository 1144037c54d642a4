/** `build_assessment` (app.py lines 89-99): four numbers about a unit's
    raw findings, rendered into a fixed sentence. The text searched for
    joins and FOR ALL ENTRIES is built from the un-normalised fields, snippet
    first: `" ".join(snippet + " " + suggestion for each finding).upper()`. */
module Assessment {
  import opened Wrappers
  import opened Strings
  import opened Helpers
  import opened Types

  /** The four numbers the sentence embeds. */
  datatype Counts = Counts(total: nat, joins: nat, forAllEntries: nat, withDraft: nat)

  const JoinToken: string := " JOIN "
  const ForAllEntriesPhrase: string := "FOR ALL ENTRIES"

  /** `(f.snippet or "") + " " + (f.suggestion or "")`. */
  function FindingText(f: FindingIn): string {
    OrEmpty(f.snippet) + " " + OrEmpty(f.suggestion)
  }

  /** The upper-cased blob searched for joins and FOR ALL ENTRIES: no
      lower-case letter is left in it. */
  function RawBlob(findings: seq<FindingIn>): (r: string)
    ensures forall i :: 0 <= i < |r| ==> !('a' <= r[i] <= 'z')
  {
    Upper(Join(seq(|findings|, i requires 0 <= i < |findings| => FindingText(findings[i])), " "))
  }

  /** Either raw field of the finding carries a draft predicate. */
  predicate MentionsDraft(f: FindingIn) {
    HasDraft(OrEmpty(f.snippet)) || HasDraft(OrEmpty(f.suggestion))
  }

  /** Which findings mention a draft predicate, in order. */
  function DraftFlags(findings: seq<FindingIn>): (flags: seq<bool>)
    ensures |flags| == |findings|
  {
    seq(|findings|, i requires 0 <= i < |findings| => MentionsDraft(findings[i]))
  }

  /** Positions of findings that mention a draft predicate. */
  ghost function DraftPositions(findings: seq<FindingIn>): set<nat> {
    TruePositions(DraftFlags(findings))
  }

  ghost function TruePositions(flags: seq<bool>): set<nat> {
    set i: nat | i < |flags| && flags[i]
  }

  /** The number of set flags: exactly the number of their positions. */
  function CountTrue(flags: seq<bool>): (n: nat)
    ensures n == |TruePositions(flags)|
    ensures n <= |flags|
    decreases |flags|
  {
    if |flags| == 0 then 0
    else
      var k := |flags| - 1;
      TruePositionsSnoc(flags);
      CountTrue(flags[..k]) + (if flags[k] then 1 else 0)
  }

  lemma TruePositionsSnoc(flags: seq<bool>)
    requires |flags| > 0
    ensures var k := |flags| - 1;
      |TruePositions(flags)| == |TruePositions(flags[..k])| + (if flags[k] then 1 else 0)
  {
    var k := |flags| - 1;
    var a := TruePositions(flags[..k]);
    var b := TruePositions(flags);
    assert k !in a;
    if flags[k] {
      assert b == a + {k};
    } else {
      assert b == a;
    }
  }

  /** `sum(1 for f in findings if ...)`: one per finding that mentions a
      draft predicate, however many it contains. */
  function DraftCount(findings: seq<FindingIn>): (n: nat)
    ensures n == |DraftPositions(findings)|
    ensures n <= |findings|
  {
    CountTrue(DraftFlags(findings))
  }

  /** The numbers of `build_assessment`: the total is the number of
      findings, the draft figure counts findings (never more than the total),
      and the two occurrence counts are bounded by the blob's length. */
  function Assess(findings: seq<FindingIn>): (c: Counts)
    ensures c.total == |findings|
    ensures c.withDraft == |DraftPositions(findings)| && c.withDraft <= c.total
    ensures c.joins * |JoinToken| <= |RawBlob(findings)|
    ensures c.forAllEntries * |ForAllEntriesPhrase| <= |RawBlob(findings)|
  {
    var blob := RawBlob(findings);
    Counts(|findings|,
           CountNonOverlapping(blob, JoinToken),
           CountNonOverlapping(blob, ForAllEntriesPhrase),
           DraftCount(findings))
  }

  /** No findings, nothing counted. */
  lemma AssessEmpty()
    ensures Assess([]) == Counts(0, 0, 0, 0)
  {
    assert RawBlob([]) == [];
  }

  /** The join figure is non-zero exactly when " JOIN " occurs in the blob,
      and likewise for FOR ALL ENTRIES. */
  lemma AssessOccurrences(findings: seq<FindingIn>)
    ensures Assess(findings).joins > 0 <==> Occurs(RawBlob(findings), JoinToken)
    ensures Assess(findings).forAllEntries > 0 <==> Occurs(RawBlob(findings), ForAllEntriesPhrase)
  {
    CountZeroIff(RawBlob(findings), JoinToken);
    CountZeroIff(RawBlob(findings), ForAllEntriesPhrase);
  }

  /** The join and FOR ALL ENTRIES figures are Python's `str.count` of the
      blob: the largest number of non-overlapping copies of the token. */
  lemma AssessCountsMatches(findings: seq<FindingIn>)
    ensures var blob, c := RawBlob(findings), Assess(findings);
      && (exists ps :: NonOverlapping(blob, JoinToken, ps) && |ps| == c.joins)
      && (forall ps :: NonOverlapping(blob, JoinToken, ps) ==> |ps| <= c.joins)
    ensures var blob, c := RawBlob(findings), Assess(findings);
      && (exists ps :: NonOverlapping(blob, ForAllEntriesPhrase, ps) && |ps| == c.forAllEntries)
      && (forall ps :: NonOverlapping(blob, ForAllEntriesPhrase, ps) ==> |ps| <= c.forAllEntries)
  {
    CountIsMaximum(RawBlob(findings), JoinToken);
    CountIsMaximum(RawBlob(findings), ForAllEntriesPhrase);
  }

  // ---------------------------------------------------------------------
  // The sentence
  // ---------------------------------------------------------------------

  const FoundPrefix: string := "Found "
  const JoinsLabel: string := " finding(s) (joins: "
  const FaeLabel: string := ", FAE: "
  const CountsClose: string := "). "
  const DraftTail: string :=
    " statement(s) include draft filtering. "
    + "The prompt embeds clear remediation instructions followed by canonical SQL snippets (preferring ones with DRAFT filters)."

  /** The f-string of `build_assessment`, nested to the right. */
  function AssessmentText(c: Counts): string {
    FoundPrefix + (NatToString(c.total) + (JoinsLabel + (NatToString(c.joins) + (FaeLabel
      + (NatToString(c.forAllEntries) + (CountsClose + (NatToString(c.withDraft) + DraftTail)))))))
  }

  /** `build_assessment`: its sentence gives back, to anyone reading it,
      exactly the four numbers of the unit's findings. */
  function BuildAssessment(findings: seq<FindingIn>): (text: string)
    ensures ParseAssessment(text) == Some(Assess(findings))
  {
    ParseAssessmentText(Assess(findings));
    AssessmentText(Assess(findings))
  }

  // ---------------------------------------------------------------------
  // Reading the numbers back
  // ---------------------------------------------------------------------

  /** Reads a maximal run of digits from the front of `s`. */
  function ReadNat(s: string): Option<(nat, string)> {
    var k := LeadingDigits(s);
    if k == 0 then None else Some((DigitsValue(s[..k]), s[k..]))
  }

  /** Recovers the four numbers from an assessment sentence. */
  function ParseAssessment(text: string): Option<Counts> {
    var s1 :- StripPrefix(FoundPrefix, text);
    var (total, s2) :- ReadNat(s1);
    var s3 :- StripPrefix(JoinsLabel, s2);
    var (joins, s4) :- ReadNat(s3);
    var s5 :- StripPrefix(FaeLabel, s4);
    var (fae, s6) :- ReadNat(s5);
    var s7 :- StripPrefix(CountsClose, s6);
    var (draft, s8) :- ReadNat(s7);
    if s8 == DraftTail then Some(Counts(total, joins, fae, draft)) else None
  }

  lemma ReadNatOf(n: nat, rest: string)
    requires rest == [] || !IsDigit(rest[0])
    ensures ReadNat(NatToString(n) + rest) == Some((n, rest))
  {
    var d := NatToString(n);
    LeadingDigitsOf(d, rest);
    assert (d + rest)[..|d|] == d;
    assert (d + rest)[|d|..] == rest;
    DigitsValueOfNatToString(n);
  }

  /** The sentence round-trips: parsing it yields the counts it renders. */
  lemma ParseAssessmentText(c: Counts)
    ensures ParseAssessment(AssessmentText(c)) == Some(c)
  {
    var t8 := DraftTail;
    var t7 := NatToString(c.withDraft) + t8;
    var t6 := CountsClose + t7;
    var t5 := NatToString(c.forAllEntries) + t6;
    var t4 := FaeLabel + t5;
    var t3 := NatToString(c.joins) + t4;
    var t2 := JoinsLabel + t3;
    var t1 := NatToString(c.total) + t2;
    assert AssessmentText(c) == FoundPrefix + t1;
    StripPrefixOf(FoundPrefix, t1);
    ReadNatOf(c.total, t2);
    StripPrefixOf(JoinsLabel, t3);
    ReadNatOf(c.joins, t4);
    StripPrefixOf(FaeLabel, t5);
    ReadNatOf(c.forAllEntries, t6);
    StripPrefixOf(CountsClose, t7);
    ReadNatOf(c.withDraft, t8);
  }

  /** Different counts give different sentences. */
  lemma AssessmentTextInjective(c: Counts, d: Counts)
    requires AssessmentText(c) == AssessmentText(d)
    ensures c == d
  {
    ParseAssessmentText(c);
    ParseAssessmentText(d);
  }
}
