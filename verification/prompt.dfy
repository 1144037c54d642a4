/** The prompt text (app.py lines 101-157): the nine default policy
    bullets, the request text around them, and the composed prompt that
    appends one fenced block per chosen snippet. The date the source reads
    from the clock is a parameter here. Each rendering has a parser partner
    and a round-trip lemma: the identity fields, the bullets and the chosen
    snippets can all be read back out of the text. */
module Prompt {
  import opened Wrappers
  import opened Strings
  import opened Types
  import opened Dedup

  // ---------------------------------------------------------------------
  // default_policy_bullets
  // ---------------------------------------------------------------------

  /** The eighth bullet up to the date. */
  const DatedBulletPrefix: string :=
    "Every ADDED or MODIFIED line must end with an inline ABAP comment: \" Added By Pwc"

  const Bullet1: string := "Remediate the ABAP code EXACTLY following these bullets."
  const Bullet2: string :=
    "Apply conditional rules (e.g., draft/active predicates) ONLY when the relevant columns exist in the referenced tables/views."
  const Bullet3: string :=
    "For SELECTs reading VBRP/VBRK in this customer landscape, append 'AND b~draft = space' and 'AND c~draft = space' (or matching aliases) when those columns exist."
  const Bullet4: string :=
    "Avoid SELECT *; use explicit field lists. Keep S/4HANA Open SQL syntax (comma-separated field lists, @ host-variable escapes)."
  const Bullet5: string :=
    "Do NOT add ORDER BY to SELECT SINGLE. For top-1 by criterion, use 'ORDER BY \U{2026} UP TO 1 ROWS'."
  const Bullet6: string :=
    "When FOR ALL ENTRIES is used, guard with 'IF it[] IS NOT INITIAL.' and deduplicate keys before FAE."
  const Bullet7: string :=
    "Keep behavior the same unless bullets say otherwise. Do not suppress warnings or add pseudo-comments."
  const Bullet9: string :=
    "Return ONLY strict JSON with key { \"remediated_code\": \"<full updated ABAP code with PwC comments on added/modified lines>\" }."

  /** `default_policy_bullets(today_str)`: nine rules; only the eighth,
      the per-line attribution comment, carries the date, at its end. */
  function DefaultPolicyBullets(today: string): (r: seq<string>)
    ensures |r| == 9
    ensures |today| <= |r[7]| && r[7][|r[7]| - |today|..] == today
  {
    [Bullet1, Bullet2, Bullet3, Bullet4, Bullet5, Bullet6, Bullet7, DatedBulletPrefix + today, Bullet9]
  }

  /** The date reaches the eighth bullet only: the other eight do not depend
      on it, and two dates give the same list exactly when they are equal. */
  lemma BulletsDependOnDateOnlyInEighth(d1: string, d2: string)
    ensures forall i :: 0 <= i < 9 && i != 7 ==> DefaultPolicyBullets(d1)[i] == DefaultPolicyBullets(d2)[i]
    ensures DefaultPolicyBullets(d1) == DefaultPolicyBullets(d2) <==> d1 == d2
  {
    if DefaultPolicyBullets(d1) == DefaultPolicyBullets(d2) {
      var b1 := DefaultPolicyBullets(d1)[7];
      assert b1 == DatedBulletPrefix + d1 == DatedBulletPrefix + d2;
      assert d1 == b1[|DatedBulletPrefix|..];
    }
  }

  // ---------------------------------------------------------------------
  // build_request_text
  // ---------------------------------------------------------------------

  const Opening: string := "Remediate the ABAP code shown below."
  const ContextHeading: string := "Context:"
  const ProgramLabel: string := "- Program: "
  const IncludeLabel: string := "- Include: "
  const UnitTypeLabel: string := "- Unit type: "
  const UnitNameLabel: string := "- Unit name: "
  const RulesHeading: string := "Rules you MUST follow:"
  const Closing: string := "Use the SQL snippets below as the canonical SELECT sources where applicable."
  const Dash: string := "- "

  function BulletLines(bullets: seq<string>): (r: seq<string>)
    ensures |r| == |bullets|
  {
    seq(|bullets|, i requires 0 <= i < |bullets| => Dash + bullets[i])
  }

  /** The `ctx` block: one labelled line per identity field, a missing unit
      name printed as empty. */
  function ContextText(unit: UnitIn): string {
    ContextHeading + "\n"
    + ProgramLabel + unit.pgmName + "\n"
    + IncludeLabel + unit.incName + "\n"
    + UnitTypeLabel + unit.unitType + "\n"
    + UnitNameLabel + OrEmpty(unit.name) + "\n"
  }

  /** `build_request_text`: opening, context, the bullets as a dashed list
      in the given order, then the closing sentence that leads to the snippets. */
  function BuildRequestText(unit: UnitIn, bullets: seq<string>): (r: string)
    ensures Opening <= r
  {
    Opening + "\n\n" + ContextText(unit) + "\n" + RulesHeading + "\n"
    + Join(BulletLines(bullets), "\n") + "\n\n" + Closing
  }

  /** What a request text says. */
  datatype RequestParts = RequestParts(
    pgmName: string, incName: string, unitType: string, unitName: string, bullets: seq<string>)

  /** Removes the dash of every bullet line. */
  function StripDashes(lines: seq<string>): Option<seq<string>>
    decreases |lines|
  {
    if |lines| == 0 then Some([])
    else
      var b :- StripPrefix(Dash, lines[0]);
      var more :- StripDashes(lines[1..]);
      Some([b] + more)
  }

  /** The lines between the rules heading and the blank line: one empty
      line for an empty list, otherwise one dashed line per bullet. */
  function ParseBulletLines(region: seq<string>): Option<seq<string>> {
    if region == [[]] then Some([]) else StripDashes(region)
  }

  /** Reads the identity fields and the bullets back out of a request text:
      the closing sentence must end it, and the lines before it must be the
      opening, the context block, the rules heading and the bullet lines. */
  function ParseRequest(text: string): Option<RequestParts> {
    var front :- StripSuffix("\n\n" + Closing, text);
    var lines := Split(front, '\n');
    if |lines| < 10 || lines[0] != Opening || lines[1] != [] || lines[2] != ContextHeading
       || lines[7] != [] || lines[8] != RulesHeading
    then None
    else
      var pgm :- StripPrefix(ProgramLabel, lines[3]);
      var inc :- StripPrefix(IncludeLabel, lines[4]);
      var unitType :- StripPrefix(UnitTypeLabel, lines[5]);
      var name :- StripPrefix(UnitNameLabel, lines[6]);
      var bullets :- ParseBulletLines(lines[9..]);
      Some(RequestParts(pgm, inc, unitType, name, bullets))
  }

  /** The request text has one line per identity field and per bullet. */
  predicate SingleLines(unit: UnitIn, bullets: seq<string>) {
    && '\n' !in unit.pgmName && '\n' !in unit.incName && '\n' !in unit.unitType
    && '\n' !in OrEmpty(unit.name)
    && forall i :: 0 <= i < |bullets| ==> '\n' !in bullets[i]
  }

  function HeaderLines(unit: UnitIn): seq<string> {
    [Opening, [], ContextHeading,
     ProgramLabel + unit.pgmName, IncludeLabel + unit.incName,
     UnitTypeLabel + unit.unitType, UnitNameLabel + OrEmpty(unit.name),
     [], RulesHeading]
  }

  function BulletRegion(bullets: seq<string>): seq<string> {
    if |bullets| == 0 then [[]] else BulletLines(bullets)
  }

  /** Everything before the blank line and the closing sentence. */
  function RequestFront(unit: UnitIn, bullets: seq<string>): string {
    Opening + "\n\n" + ContextText(unit) + "\n" + RulesHeading + "\n" + Join(BulletLines(bullets), "\n")
  }

  lemma HeadingsSingleLine()
    ensures '\n' !in Opening && '\n' !in ContextHeading && '\n' !in RulesHeading
    ensures '\n' !in ProgramLabel && '\n' !in IncludeLabel
    ensures '\n' !in UnitTypeLabel && '\n' !in UnitNameLabel && '\n' !in Dash
  {
  }

  /** The bullet lines split back into the bullet region. */
  lemma BulletBodyLines(bullets: seq<string>)
    requires forall i :: 0 <= i < |bullets| ==> '\n' !in bullets[i]
    ensures Split(Join(BulletLines(bullets), "\n"), '\n') == BulletRegion(bullets)
  {
    if |bullets| == 0 {
      SplitNone([], '\n');
    } else {
      var ls := BulletLines(bullets);
      HeadingsSingleLine();
      forall i | 0 <= i < |ls| ensures '\n' !in ls[i] {
        assert ls[i] == Dash + bullets[i];
      }
      SplitJoin(ls, '\n');
    }
  }

  /** The context block, line by line; its closing line break leaves an
      empty last piece. */
  lemma ContextLines(unit: UnitIn)
    requires SingleLines(unit, [])
    ensures Split(ContextText(unit), '\n')
         == [ContextHeading, ProgramLabel + unit.pgmName, IncludeLabel + unit.incName,
             UnitTypeLabel + unit.unitType, UnitNameLabel + OrEmpty(unit.name), []]
  {
    HeadingsSingleLine();
    var l3 := ProgramLabel + unit.pgmName;
    var l4 := IncludeLabel + unit.incName;
    var l5 := UnitTypeLabel + unit.unitType;
    var l6 := UnitNameLabel + OrEmpty(unit.name);
    var c1 := ContextHeading + "\n";
    SplitNone(ContextHeading, '\n');
    SplitThenSep(ContextHeading, '\n');
    var c2 := LabelledLine(c1, [ContextHeading], ProgramLabel, unit.pgmName);
    var c3 := LabelledLine(c2, [ContextHeading, l3], IncludeLabel, unit.incName);
    var c4 := LabelledLine(c3, [ContextHeading, l3, l4], UnitTypeLabel, unit.unitType);
    var c5 := LabelledLine(c4, [ContextHeading, l3, l4, l5], UnitNameLabel, OrEmpty(unit.name));
    assert ContextText(unit) == c5;
  }

  /** One `tag value` line and its line break appended to text whose
      pieces are `lines` plus an empty last one. */
  lemma LabelledLine(a: string, lines: seq<string>, tag: string, value: string) returns (r: string)
    requires '\n' !in tag && '\n' !in value
    requires Split(a, '\n') == lines + [[]]
    ensures r == a + tag + value + "\n"
    ensures Split(r, '\n') == lines + [tag + value] + [[]]
  {
    SplitThenText(a, tag, '\n');
    var sa := lines + [[]];
    assert sa[..|sa| - 1] == lines && sa[|sa| - 1] + tag == tag;
    assert Split(a + tag, '\n') == lines + [tag];
    SplitThenText(a + tag, value, '\n');
    var sb := lines + [tag];
    assert sb[..|sb| - 1] == lines && sb[|sb| - 1] == tag;
    assert Split(a + tag + value, '\n') == lines + [tag + value];
    SplitThenSep(a + tag + value, '\n');
    r := a + tag + value + "\n";
  }

  /** A one-line opening, a blank line, then a block ending in a line
      break. */
  lemma OpeningSplit(opening: string, ctx: string, ctxLines: seq<string>)
    requires '\n' !in opening
    requires Split(ctx, '\n') == ctxLines + [[]]
    ensures Split(opening + "\n\n" + ctx, '\n') == [opening, []] + ctxLines + [[]]
  {
    var rest := "\n" + ctx;
    assert opening + "\n\n" + ctx == opening + ['\n'] + rest;
    SplitLine(opening, rest, '\n');
    assert rest[0] == '\n' && rest[1..] == ctx;
    assert Split(rest, '\n') == [[]] + Split(ctx, '\n');
  }

  /** Text whose pieces end in an empty one, then a blank line, a one-line
      heading and a body. */
  lemma HeadingSplit(a: string, lines: seq<string>, heading: string, body: string)
    requires '\n' !in heading
    requires Split(a, '\n') == lines + [[]]
    ensures Split(a + "\n" + heading + "\n" + body, '\n') == lines + [[], heading] + Split(body, '\n')
  {
    HeadingLine(a, lines, heading);
    SplitAround(a + "\n" + heading, body, '\n');
  }

  /** Text whose pieces end in an empty one, then a blank line and a
      one-line heading. */
  lemma HeadingLine(a: string, lines: seq<string>, heading: string)
    requires '\n' !in heading
    requires Split(a, '\n') == lines + [[]]
    ensures Split(a + "\n" + heading, '\n') == lines + [[], heading]
  {
    SplitAround(a, heading, '\n');
    SplitNone(heading, '\n');
  }

  /** The front of the request text, line by line. */
  lemma RequestLines(unit: UnitIn, bullets: seq<string>)
    requires SingleLines(unit, bullets)
    ensures Split(RequestFront(unit, bullets), '\n') == HeaderLines(unit) + BulletRegion(bullets)
  {
    assert SingleLines(unit, []);
    HeadingsSingleLine();
    ContextLines(unit);
    BulletBodyLines(bullets);
    var ctxLines := [ContextHeading, ProgramLabel + unit.pgmName, IncludeLabel + unit.incName,
                     UnitTypeLabel + unit.unitType, UnitNameLabel + OrEmpty(unit.name)];
    OpeningSplit(Opening, ContextText(unit), ctxLines);
    HeadingSplit(Opening + "\n\n" + ContextText(unit), [Opening, []] + ctxLines,
                 RulesHeading, Join(BulletLines(bullets), "\n"));
  }

  lemma {:induction false} StripDashesOf(bullets: seq<string>)
    ensures StripDashes(BulletLines(bullets)) == Some(bullets)
    decreases |bullets|
  {
    if |bullets| > 0 {
      var ls := BulletLines(bullets);
      StripPrefixOf(Dash, bullets[0]);
      assert ls[1..] == BulletLines(bullets[1..]);
      StripDashesOf(bullets[1..]);
      assert [bullets[0]] + bullets[1..] == bullets;
    }
  }

  /** The request text round-trips: its identity fields and its bullets,
      in order, can be read back from it. */
  lemma ParseRequestText(unit: UnitIn, bullets: seq<string>)
    requires SingleLines(unit, bullets)
    ensures ParseRequest(BuildRequestText(unit, bullets))
         == Some(RequestParts(unit.pgmName, unit.incName, unit.unitType, OrEmpty(unit.name), bullets))
  {
    var front := RequestFront(unit, bullets);
    assert BuildRequestText(unit, bullets) == front + ("\n\n" + Closing);
    StripSuffixOf("\n\n" + Closing, front);
    RequestLines(unit, bullets);
    var lines := HeaderLines(unit) + BulletRegion(bullets);
    assert lines[9..] == BulletRegion(bullets);
    StripPrefixOf(ProgramLabel, unit.pgmName);
    StripPrefixOf(IncludeLabel, unit.incName);
    StripPrefixOf(UnitTypeLabel, unit.unitType);
    StripPrefixOf(UnitNameLabel, OrEmpty(unit.name));
    if |bullets| > 0 {
      StripDashesOf(bullets);
      assert BulletLines(bullets)[0] == Dash + bullets[0];
      assert BulletLines(bullets) != [[]];
    }
  }

  // ---------------------------------------------------------------------
  // compose_llm_prompt
  // ---------------------------------------------------------------------

  const SnippetsHeading: string := "\n\nSQL snippets to apply (prefer those with DRAFT filters):\n\n"
  const FenceOpen: string := "```abap\n"
  const FenceClose: string := "\n```"
  const BlockSeparator: string := "\n\n"

  /** One chosen snippet as an ABAP code fence. */
  function Fence(sql: string): string {
    FenceOpen + sql + FenceClose
  }

  function Fences(chosen: seq<string>): (r: seq<string>)
    ensures |r| == |chosen|
  {
    seq(|chosen|, i requires 0 <= i < |chosen| => Fence(chosen[i]))
  }

  /** `snippets_block`: empty when nothing was chosen, otherwise a heading
      and the fences separated by blank lines. */
  function SnippetsBlock(chosen: seq<string>): (r: string)
    ensures r == [] <==> chosen == []
  {
    if |chosen| == 0 then []
    else SnippetsHeading + Join(Fences(chosen), BlockSeparator) + "\n"
  }

  /** What follows the request text: a bare line break, or a blank line
      and the snippets block. */
  function SnippetTail(chosen: seq<string>): (r: string)
    ensures r == "\n" <==> chosen == []
  {
    var block := SnippetsBlock(chosen);
    if block != [] then "\n\n" + block else "\n"
  }

  /** `compose_llm_prompt`, with the date passed in: the request text
      built from the default bullets, then the snippet tail. */
  function ComposeLlmPrompt(unit: UnitIn, findings: seq<FindingIn>, today: string): (r: string)
    ensures BuildRequestText(unit, DefaultPolicyBullets(today)) <= r
    ensures ChosenSnippets(findings) == [] <==> r == BuildRequestText(unit, DefaultPolicyBullets(today)) + "\n"
  {
    BuildRequestText(unit, DefaultPolicyBullets(today)) + SnippetTail(ChosenSnippets(findings))
  }

  /** A snippet that cannot close its own fence: it holds no line break
      followed by three backticks. */
  ghost predicate KeepsFence(sql: string) {
    !Occurs(sql, FenceClose)
  }

  /** Reads fenced snippets back, each fence ended by the first line break
      and three backticks after its opening line. */
  function ParseFences(m: string): Option<seq<string>>
    decreases |m|
  {
    var rest :- StripPrefix(FenceOpen, m);
    var k := IndexOf(rest, FenceClose);
    if k == |rest| then None
    else
      var sql := rest[..k];
      var after := rest[k + |FenceClose|..];
      if after == [] then Some([sql])
      else
        var next :- StripPrefix(BlockSeparator, after);
        var more :- ParseFences(next);
        Some([sql] + more)
  }

  /** Reads the chosen snippets back from what follows the request text. */
  function ParseSnippetSection(tail: string): Option<seq<string>> {
    if tail == "\n" then Some([])
    else
      var body :- StripPrefix("\n\n" + SnippetsHeading, tail);
      if |body| == 0 || body[|body| - 1] != '\n' then None
      else ParseFences(body[..|body| - 1])
  }

  /** Reads the chosen snippets out of a prompt built on `request`. */
  function ParsePromptSnippets(prompt: string, request: string): Option<seq<string>> {
    var tail :- StripPrefix(request, prompt);
    ParseSnippetSection(tail)
  }

  /** The first closing fence after a snippet that keeps its fence is the
      one right after it: a match starting inside the snippet would either
      lie in the snippet or need a backtick where the line break is. */
  lemma FenceScan(sql: string, after: string)
    requires KeepsFence(sql)
    ensures var rest := sql + FenceClose + after;
      && IndexOf(rest, FenceClose) == |sql|
      && rest[..|sql|] == sql && rest[|sql| + |FenceClose|..] == after
  {
    var rest := sql + FenceClose + after;
    assert MatchAt(rest, FenceClose, |sql|) by {
      assert rest[|sql|..|sql| + |FenceClose|] == FenceClose;
    }
    forall i | 0 <= i < |sql| ensures !MatchAt(rest, FenceClose, i) {
      if i + |FenceClose| <= |sql| {
        assert !MatchAt(sql, FenceClose, i);
        assert rest[i..i + |FenceClose|] == sql[i..i + |FenceClose|];
      } else {
        assert rest[|sql|] == '\n';
        assert FenceClose[|sql| - i] == '`';
      }
    }
  }

  /** Parsing a last fence. */
  lemma ParseLastFence(sql: string)
    requires KeepsFence(sql)
    ensures ParseFences(Fence(sql)) == Some([sql])
  {
    var rest := sql + FenceClose + [];
    FenceScan(sql, []);
    assert Fence(sql) == FenceOpen + rest;
    StripPrefixOf(FenceOpen, rest);
  }

  /** Parsing a fence followed by a blank line and more text. */
  lemma ParseFenceThen(sql: string, next: string)
    requires KeepsFence(sql)
    ensures ParseFences(Fence(sql) + BlockSeparator + next)
         == if ParseFences(next).Some? then Some([sql] + ParseFences(next).value) else None
  {
    var after := BlockSeparator + next;
    var rest := sql + FenceClose + after;
    FenceScan(sql, after);
    assert Fence(sql) + BlockSeparator + next == FenceOpen + rest;
    StripPrefixOf(FenceOpen, rest);
    StripPrefixOf(BlockSeparator, next);
  }

  /** One snippet gives one fence and parses back. */
  lemma ParseOneFence(chosen: seq<string>)
    requires |chosen| == 1 && KeepsFence(chosen[0])
    ensures ParseFences(Join(Fences(chosen), BlockSeparator)) == Some(chosen)
  {
    assert Fences(chosen) == [Fence(chosen[0])];
    ParseLastFence(chosen[0]);
    assert [chosen[0]] == chosen;
  }

  /** More snippets: the first fence, a blank line, then the fences of the
      rest, which parse back by themselves. */
  lemma ParseMoreFences(chosen: seq<string>)
    requires |chosen| > 1 && KeepsFence(chosen[0])
    requires ParseFences(Join(Fences(chosen[1..]), BlockSeparator)) == Some(chosen[1..])
    ensures ParseFences(Join(Fences(chosen), BlockSeparator)) == Some(chosen)
  {
    var tail := chosen[1..];
    JoinFencesCons(chosen);
    ParseFenceThen(chosen[0], Join(Fences(tail), BlockSeparator));
    assert [chosen[0]] + tail == chosen;
  }

  /** The fences of several snippets: the first fence, a blank line, the
      fences of the rest. */
  lemma JoinFencesCons(chosen: seq<string>)
    requires |chosen| > 1
    ensures Join(Fences(chosen), BlockSeparator)
         == Fence(chosen[0]) + BlockSeparator + Join(Fences(chosen[1..]), BlockSeparator)
  {
    var fs := Fences(chosen);
    assert fs[0] == Fence(chosen[0]) && fs[1..] == Fences(chosen[1..]);
  }

  lemma {:induction false} ParseFencesOf(chosen: seq<string>)
    requires |chosen| > 0
    requires forall i :: 0 <= i < |chosen| ==> KeepsFence(chosen[i])
    ensures ParseFences(Join(Fences(chosen), BlockSeparator)) == Some(chosen)
    decreases |chosen|
  {
    if |chosen| == 1 {
      ParseOneFence(chosen);
    } else {
      ParseFencesOf(chosen[1..]);
      ParseMoreFences(chosen);
    }
  }

  /** A section of heading, fences and final line break reads back to what
      the fences read back to. */
  lemma ParseSectionOfFences(fences: string)
    ensures ParseSnippetSection("\n\n" + SnippetsHeading + fences + "\n") == ParseFences(fences)
  {
    var tail := "\n\n" + SnippetsHeading + fences + "\n";
    assert tail == ("\n\n" + SnippetsHeading) + (fences + "\n");
    StripPrefixOf("\n\n" + SnippetsHeading, fences + "\n");
    assert (fences + "\n")[..|fences|] == fences;
  }

  /** The tail after a request with snippets: a blank line, the heading,
      the fences and a final line break. */
  lemma SnippetTailShape(chosen: seq<string>)
    requires chosen != []
    ensures SnippetTail(chosen) == "\n\n" + SnippetsHeading + Join(Fences(chosen), BlockSeparator) + "\n"
  {
  }

  /** A non-empty snippet section reads back to its snippets. */
  lemma ParseSnippetSectionOf(chosen: seq<string>)
    requires chosen != []
    requires forall i :: 0 <= i < |chosen| ==> KeepsFence(chosen[i])
    ensures ParseSnippetSection(SnippetTail(chosen)) == Some(chosen)
  {
    SnippetTailShape(chosen);
    ParseSectionOfFences(Join(Fences(chosen), BlockSeparator));
    ParseFencesOf(chosen);
  }

  /** The snippet tail round-trips after any request text, provided no
      snippet holds a line break followed by three backticks. */
  lemma ParseSnippetTail(request: string, chosen: seq<string>)
    requires forall i :: 0 <= i < |chosen| ==> KeepsFence(chosen[i])
    ensures ParsePromptSnippets(request + SnippetTail(chosen), request) == Some(chosen)
  {
    StripPrefixOf(request, SnippetTail(chosen));
    if chosen != [] {
      ParseSnippetSectionOf(chosen);
    }
  }

  /** The composed prompt round-trips: it is the request text followed by a
      section from which the chosen snippets, in order, can be read back,
      provided no snippet holds a line break followed by three backticks,
      which would close its fence early. */
  lemma ComposeRoundTrip(unit: UnitIn, findings: seq<FindingIn>, today: string)
    requires forall i :: 0 <= i < |ChosenSnippets(findings)| ==> KeepsFence(ChosenSnippets(findings)[i])
    ensures ParsePromptSnippets(ComposeLlmPrompt(unit, findings, today),
                                BuildRequestText(unit, DefaultPolicyBullets(today)))
         == Some(ChosenSnippets(findings))
  {
    ParseSnippetTail(BuildRequestText(unit, DefaultPolicyBullets(today)), ChosenSnippets(findings));
  }
}
