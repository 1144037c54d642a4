/** `choose_best_sql` (app.py lines 66-87): per finding, pick which of the
    two normalised remediation candidates goes into the prompt. Four rules,
    first match wins:
      1. the suggestion, if it starts with the SELECT token;
      2. the suggestion, if it has a draft predicate and the snippet has not;
      3. the snippet, if it starts with the SELECT token;
      4. the first non-empty of suggestion and snippet, else nothing.
    The lemmas state each rule, for any pair of candidates, against the
    regex readings of the two classifiers, so they rest on the scan/regex
    equivalences. */
module Selector {
  import opened Wrappers
  import opened Strings
  import opened Helpers
  import opened Types

  function Suggestion(f: FindingIn): string {
    NormalizeText(f.suggestion)
  }

  function Snippet(f: FindingIn): string {
    NormalizeText(f.snippet)
  }

  /** The four rules over the two normalised candidates, first match wins. */
  function Choose(suggestion: string, snippet: string): Option<string> {
    if LooksLikeSql(suggestion) then Some(suggestion)
    else if HasDraft(suggestion) && !HasDraft(snippet) && suggestion != [] then Some(suggestion)
    else if LooksLikeSql(snippet) then Some(snippet)
    else if suggestion != [] then Some(suggestion)
    else if snippet != [] then Some(snippet)
    else None
  }

  /** A pick is always one of the two candidates and never empty; there is
      no pick exactly when both candidates are empty. */
  lemma ChooseIsCandidate(suggestion: string, snippet: string)
    ensures var r := Choose(suggestion, snippet);
      && (r.Some? ==> r.value == suggestion || r.value == snippet)
      && (r.Some? ==> r.value != [])
      && (r.None? <==> suggestion == [] && snippet == [])
  {
    if LooksLikeSql(suggestion) {
      SelectNotEmpty(suggestion);
    } else if HasDraft(suggestion) && !HasDraft(snippet) && suggestion != [] {
    } else if LooksLikeSql(snippet) {
      SelectNotEmpty(snippet);
    }
  }

  /** Text that starts with SELECT is not empty. */
  lemma SelectNotEmpty(s: string)
    requires LooksLikeSql(s)
    ensures |s| >= 6
  {
  }

  /** `choose_best_sql`: normalise both candidates, then apply the rules.
      A pick is one of the normalised candidates and never empty; there is
      no pick exactly when both normalise to the empty string. */
  function ChooseBestSql(f: FindingIn): (r: Option<string>)
    ensures r.Some? ==> r.value == Suggestion(f) || r.value == Snippet(f)
    ensures r.Some? ==> r.value != []
    ensures r.None? <==> Suggestion(f) == [] && Snippet(f) == []
  {
    ChooseIsCandidate(Suggestion(f), Snippet(f));
    Choose(Suggestion(f), Snippet(f))
  }

  /** The text starts with the SELECT token (regex reading). */
  ghost predicate SqlStart(s: string) {
    exists k :: SqlStartAt(s, k)
  }

  /** The text holds a draft predicate (regex reading). */
  ghost predicate DraftPredicate(s: string) {
    exists i :: DraftMatchAt(s, i)
  }

  /** Rule 1: a suggestion that starts with SELECT is chosen, whatever the
      snippet is. */
  lemma SqlSuggestionWins(suggestion: string, snippet: string)
    requires SqlStart(suggestion)
    ensures Choose(suggestion, snippet) == Some(suggestion)
  {
    LooksLikeSqlIff(suggestion);
  }

  /** Rule 2: otherwise a suggestion with a draft predicate beats a snippet
      without one, even when the suggestion is not a SELECT. */
  lemma DraftSuggestionWins(suggestion: string, snippet: string)
    requires !SqlStart(suggestion)
    requires DraftPredicate(suggestion) && !DraftPredicate(snippet)
    ensures Choose(suggestion, snippet) == Some(suggestion)
  {
    LooksLikeSqlIff(suggestion);
    HasDraftIff(suggestion);
    HasDraftIff(snippet);
  }

  /** Rule 3: failing rules 1 and 2, a snippet that starts with SELECT is
      chosen. */
  lemma SqlSnippetFallback(suggestion: string, snippet: string)
    requires !SqlStart(suggestion)
    requires !DraftPredicate(suggestion) || DraftPredicate(snippet)
    requires SqlStart(snippet)
    ensures Choose(suggestion, snippet) == Some(snippet)
  {
    LooksLikeSqlIff(suggestion);
    LooksLikeSqlIff(snippet);
    HasDraftIff(suggestion);
    HasDraftIff(snippet);
  }

  /** Rule 4: failing rules 1-3, the first non-empty candidate is chosen,
      the suggestion before the snippet, and nothing when both are empty. */
  lemma NonEmptyFallback(suggestion: string, snippet: string)
    requires !SqlStart(suggestion) && !SqlStart(snippet)
    requires !DraftPredicate(suggestion) || DraftPredicate(snippet)
    ensures suggestion != [] ==> Choose(suggestion, snippet) == Some(suggestion)
    ensures suggestion == [] && snippet != [] ==> Choose(suggestion, snippet) == Some(snippet)
    ensures suggestion == [] && snippet == [] ==> Choose(suggestion, snippet) == None
  {
    LooksLikeSqlIff(suggestion);
    LooksLikeSqlIff(snippet);
    HasDraftIff(suggestion);
    HasDraftIff(snippet);
  }

  /** The snippet is chosen only when rules 1 and 2 did not pick the
      suggestion: either it starts with SELECT, or the suggestion is empty. */
  lemma SnippetChosenOnlyAsFallback(suggestion: string, snippet: string)
    requires suggestion != snippet
    requires Choose(suggestion, snippet) == Some(snippet)
    ensures !SqlStart(suggestion)
    ensures !DraftPredicate(suggestion) || DraftPredicate(snippet)
    ensures SqlStart(snippet) || suggestion == []
  {
    LooksLikeSqlIff(suggestion);
    LooksLikeSqlIff(snippet);
    HasDraftIff(suggestion);
    HasDraftIff(snippet);
  }
}
