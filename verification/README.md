# LLM prompt builder — a Dafny model of its core

The service takes static-analysis findings about ABAP source units and turns
each unit into two texts for a downstream language model:

- an **assessment** sentence with four numbers about the unit's findings;
- a **prompt** that holds a fixed remediation request, followed by the
  de-duplicated SQL snippets chosen from the findings.

This project models the pure core of `app.py`:

- the text normaliser and the two regex classifiers (`^\s*SELECT\b` and
  `\bdraft\s*=\s*`, both case-insensitive);
- the four-rule snippet selector `choose_best_sql`;
- the de-duplication loop of `compose_llm_prompt`;
- `build_assessment`, `default_policy_bullets` and `build_request_text`;
- the prompt assembly;
- the per-unit loop of the `POST /build-llm-prompt` handler.

Every rendering has a parser partner, and a lemma proves that the rendered
text reads back to what was rendered:

- the assessment sentence gives back its four numbers;
- the request text gives back the identity fields and the bullets;
- the prompt gives back the chosen snippets.

Each classifier is written two ways:

- an executable scan (`LooksLikeSql`, `HasDraft`);
- a reading of the regex as "a match starts at some position" (`SqlStartAt`, `DraftMatchAt`).

Lemmas prove the two agree. The selector rules are stated against the regex
readings, for any pair of candidates. A finding's pick applies them to its two
normalised fields. The de-duplication loop and its lemmas are stated for any
key function. A unit's chosen snippets use the source's key, `strip().upper()`
(`Dedup.Key`).

Modules follow the source:

| file | module | contents |
|---|---|---|
| `wrappers.dfy` | `Wrappers` | `Option` and `OrEmpty` |
| `strings.dfy` | `Strings` | ASCII `strip`, `upper`, `split`, `join`, `count`, and decimal rendering |
| `helpers.dfy` | `Helpers` | `_normalize_text`, `_looks_like_sql`, `_has_draft` |
| `types.dfy` | `Types` | the records |
| `selector.dfy` | `Selector` | `choose_best_sql` |
| `dedup.dfy` | `Dedup` | the de-duplication loop |
| `assessment.dfy` | `Assessment` | `build_assessment`, whose blob uses the raw fields, snippet first; only the selector sees normalised text |
| `prompt.dfy` | `Prompt` | the bullets, the request text and the composed prompt |
| `api.dfy` | `Api` | the handler loop |

Characters follow ASCII rules:

- whitespace is space, `\t` to `\r`, and `\x1c` to `\x1f`;
- word characters are `[A-Za-z0-9_]`;
- upper-casing maps only `a`-`z`.

## Model

| member | source | states |
|---|---|---|
| Helpers.NormalizeText | app.py:54-58 | A missing field normalises to the empty string. The result is never longer than the input. It neither starts nor ends with whitespace. |
| Helpers.NormalizeIsInfix | app.py:58 | The normalised text is the replaced text with two all-whitespace margins cut off, so everything between its first and last non-whitespace character is kept. With `NormalizeText`'s contract this pins the result down exactly. |
| Helpers.ReplaceCrLfEscapes | app.py:58 | `str.replace` of the escaped CR LF, left to right and without overlap: the result is never longer than the input. Its contents on every input are fixed by `ReplaceAtFirstEscape` and `ReplaceNoEscape`. |
| Helpers.ReplaceAtFirstEscape | app.py:54-58 | For any text, with or without real line feeds: the first escaped CR LF that `str.find` locates becomes one line feed. The text before it is kept, and the replacement continues on the text after it. |
| Helpers.MixedLineBreaks | app.py:58 | A text holding a real line feed and then an escaped CR LF keeps the real one and gains a second line feed for the escape. |
| Helpers.NormalizedHasNoEscape | app.py:54-58 | No escaped CR LF (backslash, r, backslash, n) is left in normalised text. |
| Helpers.NormalizeIdempotent | app.py:54-58 | Normalising already-normalised text changes nothing. |
| Helpers.NoEscapeAfterReplace | app.py:58 | After the replacement, no escaped CR LF occurs anywhere, including across a replaced position. |
| Helpers.ReplaceNoEscape | app.py:58 | Text without an escaped CR LF passes through the replacement unchanged. |
| Helpers.RestoreAfterReplace | app.py:58 | On text without real line feeds, turning each line feed back into the escape gives the original. So the replacement converts each escape to exactly one line feed and loses nothing else. |
| Helpers.TrimHasNoEscape | app.py:58 | Stripping cannot create an escaped CR LF. |
| Strings.TrimIsInfix | app.py:58 | `strip()` returns a contiguous infix whose cut-off margins on both sides are all whitespace. |
| Strings.TrimIdempotent | app.py:143 | Stripping twice is stripping once. |
| Helpers.LooksLikeSqlIff | app.py:60-61 | The scan accepts exactly when `^\s*SELECT\b` matches. That means some all-whitespace prefix is followed by `SELECT` in any case, then the end of the text or a non-word character. |
| Helpers.LooksLikeSql | app.py:60-61 | The scan for `^\s*SELECT\b`: skip leading whitespace, compare six characters case-insensitively, then require the end or a non-word character. `LooksLikeSqlIff` proves it equals the regex reading. |
| Helpers.LooksLikeSqlWitness | app.py:60-61 | Wherever the scan accepts, the regex matches at the position after the leading whitespace. |
| Helpers.SqlStartAtScan | app.py:60-61 | Wherever the regex matches, the scan accepts. |
| Helpers.EqualsAfterSpacesIff | app.py:52 | The greedy whitespace skip before `=` agrees with the regex's "some whitespace run, then `=`". |
| Helpers.DraftSearchIff | app.py:63-64 | A search from position `i` succeeds exactly when a match of `\bdraft\s*=` starts at `i` or later. |
| Helpers.HasDraft | app.py:63-64 | The search for `\bdraft\s*=`, tried at every position from the start. `HasDraftIff` proves it equals the regex reading. |
| Helpers.HasDraftIff | app.py:63-64 | `_has_draft` holds exactly when `\bdraft\s*=` matches somewhere: a word boundary, `draft` in any case, optional whitespace, then `=`. |
| Selector.Choose | app.py:78-87 | The four rules, tried in source order, on two already-normalised candidates. Its guarantees are stated by `ChooseIsCandidate` and the four rule lemmas below. |
| Selector.ChooseIsCandidate | app.py:78-87 | For any two candidates, the rules pick one of them and never an empty one. They pick nothing exactly when both are empty. |
| Selector.ChooseBestSql | app.py:66-87 | A finding's pick is one of its two normalised candidates, never empty. There is no pick exactly when both normalise to the empty string. |
| Selector.SqlSuggestionWins | app.py:81-82 | Rule 1: a suggestion that starts with SELECT is chosen, whatever the snippet is. |
| Selector.DraftSuggestionWins | app.py:83-84 | Rule 2: failing rule 1, a suggestion with a draft predicate beats a snippet without one, even when the suggestion is not a SELECT. |
| Selector.SqlSnippetFallback | app.py:85-86 | Rule 3: failing rules 1 and 2, a snippet that starts with SELECT is chosen. |
| Selector.NonEmptyFallback | app.py:87 | Rule 4: failing rules 1-3, the first non-empty of suggestion and snippet is chosen, and nothing when both are empty. |
| Selector.SnippetChosenOnlyAsFallback | app.py:81-87 | When a snippet different from the suggestion is chosen, rules 1 and 2 did not fire, and either the snippet starts with SELECT or the suggestion is empty. |
| Dedup.Candidates | app.py:140-142 | The picks that reach the key test are exactly the non-empty picks: a string is among them if and only if it is non-empty and some finding picked it. None is empty, and there are no more of them than findings. |
| Dedup.Key | app.py:143 | The key `strip().upper()` has no outer whitespace and no lower-case letter, and is never longer than the pick. |
| Dedup.DedupFrom | app.py:137-147 | For any key function, the kept picks are an order-preserving subsequence of the non-empty picks. Each is non-empty, its key was not seen before, and no two share a key. |
| Dedup.DedupKeepsFirst | app.py:143-147 | Each kept pick is the first non-empty pick that carries its key, so later duplicates are never kept. |
| Dedup.DedupKeys | app.py:143-147 | The kept keys are exactly the keys of the non-empty picks, minus the keys already seen. |
| Dedup.Coverage | app.py:139-147 | Every non-empty pick's key is represented among the kept picks. |
| Dedup.DedupOfDistinct | app.py:143-147 | Non-empty, key-distinct, unseen picks pass through the loop unchanged. |
| Dedup.DedupIdempotent | app.py:137-147 | Running the loop over its own output changes nothing. |
| Dedup.DedupShape | app.py:139-147 | The loop keeps no more picks than it is given, and every kept pick is one of them. |
| Dedup.ChosenSnippets | app.py:137-147 | The loop run over the unit's picks with the source key and an empty seen set. What it keeps is stated by `DedupFrom` and the lemmas above. |
| Dedup.ChosenSnippetsShape | app.py:137-147 | A unit has no more chosen snippets than findings. Each snippet is the pick of one of its findings, and all keys are pairwise different. |
| Strings.CountNonOverlapping | app.py:92-93 | `str.count` by a left-to-right scan that resumes past each match: that many copies of a non-empty pattern fit in the text. An empty pattern counts `len + 1`. |
| Strings.CountAchieved | app.py:92-93 | The scan's count is achieved: there is a list of that many increasing, non-overlapping match positions. |
| Strings.CountIsMaximal | app.py:92-93 | No list of increasing, non-overlapping match positions is longer than the scan's count. |
| Strings.CountIsMaximum | app.py:92-93 | For a non-empty pattern, `str.count` is the largest number of non-overlapping copies of the pattern in the text. |
| Strings.CountJoinExamples | app.py:92 | Two joins that share one space count once; with two spaces between them they count twice. |
| Strings.CountZeroIff | app.py:92-93 | The count is zero exactly when the pattern does not occur. |
| Assessment.RawBlob | app.py:91 | The blob joins `snippet + " " + suggestion` of every finding with single spaces and upper-cases it, so no lower-case letter is left. |
| Assessment.MentionsDraft | app.py:94 | A finding counts towards the draft figure when either raw field, a missing one read as empty, has a draft predicate. |
| Assessment.DraftCount | app.py:94 | The draft figure is the number of findings that mention a draft predicate in either raw field, so it is never more than the number of findings. |
| Assessment.Assess | app.py:89-94 | The total is the number of findings. The draft figure is at most the total. The join and FOR ALL ENTRIES figures are bounded by the length of the upper-cased raw blob (`snippet + " " + suggestion` per finding, joined by `" "`). Their exact values are stated by `AssessCountsMatches`. |
| Assessment.AssessEmpty | app.py:89-94 | No findings give four zeros. |
| Assessment.AssessOccurrences | app.py:91-93 | The join figure is non-zero exactly when `" JOIN "` occurs in the blob, and likewise for `"FOR ALL ENTRIES"`. |
| Assessment.AssessCountsMatches | app.py:91-93 | The join figure is the largest number of non-overlapping `" JOIN "` copies in the blob, and the FOR ALL ENTRIES figure likewise for its phrase. |
| Assessment.AssessmentText | app.py:95-99 | The f-string with the four numbers in decimal. `ParseAssessmentText` proves the numbers read back from it. |
| Assessment.BuildAssessment | app.py:95-99 | The sentence can be parsed back to exactly the unit's four numbers. |
| Assessment.ParseAssessmentText | app.py:95-99 | Round trip: parsing the rendered sentence of any four numbers gives back those numbers. |
| Assessment.AssessmentTextInjective | app.py:95-99 | Different numbers give different sentences. |
| Strings.DigitsValueOfNatToString | app.py:96-97 | The decimal rendering of a number reads back as that number. |
| Prompt.DefaultPolicyBullets | app.py:101-112 | There are nine bullets, and the eighth ends with the date. |
| Prompt.BulletsDependOnDateOnlyInEighth | app.py:101-112 | Every bullet except the eighth is the same whatever the date. Two dates give the same list exactly when they are equal. |
| Prompt.ContextText | app.py:115-121 | The context block, one labelled line per identity field, a missing unit name printed as empty. `ContextLines` splits it back into those lines. |
| Prompt.BuildRequestText | app.py:114-129 | The request text opens with the fixed remediation sentence. |
| Prompt.ParseRequestText | app.py:114-129 | Round trip: when the identity fields and bullets are single lines, the program, include, unit type, unit name (a missing name as empty) and the bullets, in order, are read back from the request text. |
| Prompt.StripDashesOf | app.py:122 | Removing the `"- "` of each rendered bullet line gives the bullets back. |
| Prompt.SnippetTail | app.py:157 | What follows the request text is a single line break exactly when no snippet was chosen. |
| Prompt.SnippetsBlock | app.py:149-155 | The snippet block is empty exactly when nothing was chosen. |
| Prompt.ComposeLlmPrompt | app.py:131-157 | The prompt starts with the request text. It is exactly the request text plus one line break exactly when no snippet was chosen. |
| Prompt.ParseSnippetTail | app.py:149-157 | After any request text, the snippet section reads back to the chosen snippets, in order, provided none contains a line break followed by three backticks. |
| Prompt.ComposeRoundTrip | app.py:131-157 | The chosen snippets, in dedup order, are read back from the composed prompt, provided none contains a line break followed by three backticks. |
| Api.AnswerFields | app.py:170-184 | Program, include and type are copied. A missing name or class becomes empty text. Line numbers are copied. The unit's four numbers read back from the assessment. The prompt opens with the unit's request text, and the chosen snippets read back from it when none contains a line break followed by three backticks. |
| Api.Answer | app.py:171-184 | The record for one unit: identity echoed, assessment and prompt built from its findings. `AnswerFields` states what each field holds. |
| Api.MapInOrder | app.py:169-174 | One result per element, appended in order, each computed from its own element. |
| Api.BuildLlmPrompt | app.py:163-185 | The answers line up one-to-one with the units. Each is computed from its own unit and the one date. |

## Left out

- The FastAPI application, the route decorators, pydantic validation and the `/health` endpoint. The records are taken as already validated. Optional text is `Option<string>`, and line numbers are integers, which is why `start_line or 0` is the identity.
- `date.today()` is the `today` parameter of `ComposeLlmPrompt` and `BuildLlmPrompt`. The source reads the clock once per unit, so a request that spans midnight could date its units differently. The model uses one date per request.
- Unicode behaviour of `str.strip`, `str.upper`, and the regex classes `\s`, `\w`, `\b` and `IGNORECASE`. Only ASCII is modelled, as listed above.
- Prompt.ParseRequestText: proved for any bullets that are single lines. It is not proved that the nine literal default bullets contain no line feed, because facts about long literals are too costly for the verifier. So the round trip for the default list rests on that visible property of the constants.
- Prompt.ComposeRoundTrip: requires that no chosen snippet contains a line break followed by three backticks. Such a snippet would close its fence early, and the source does no escaping, so its prompt cannot be read back.
- Prompt.ParseSnippetTail: the same requirement, for the same reason. Backticks elsewhere in a snippet, such as ABAP backquote literals, are allowed.
- Prompt.DefaultPolicyBullets: the wording of the bullets and of the assessment sentence is carried as constants. Only their count, their order and where the date and the numbers go are stated.
