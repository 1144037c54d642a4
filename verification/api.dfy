/** The `POST /build-llm-prompt` handler (app.py lines 164-185): one output
    record per input unit, in input order, echoing the unit's identity and
    adding its assessment and prompt. The clock read of the source is the
    `today` parameter, one date for the whole request. */
module Api {
  import opened Wrappers
  import opened Types
  import opened Assessment
  import opened Dedup
  import opened Prompt

  /** The record the handler builds for one unit. */
  function Answer(unit: UnitIn, today: string): UnitOut {
    UnitOut(unit.pgmName, unit.incName, unit.unitType,
            OrEmpty(unit.name), OrEmpty(unit.classImplementation),
            unit.startLine, unit.endLine,
            BuildAssessment(unit.findings),
            ComposeLlmPrompt(unit, unit.findings, today))
  }

  /** What one answer says about its unit: the identity echoed (a missing
      name or class as empty text, line numbers as given), an assessment
      from which the unit's counts can be read back, and a prompt that opens
      with the unit's request text and from which the chosen snippets can be
      read back when none can close its fence early. */
  lemma AnswerFields(unit: UnitIn, today: string)
    ensures var out := Answer(unit, today);
      && out.pgmName == unit.pgmName && out.incName == unit.incName && out.unitType == unit.unitType
      && (unit.name.Some? ==> out.name == unit.name.value)
      && (unit.name.None? ==> out.name == [])
      && (unit.classImplementation.Some? ==> out.classImplementation == unit.classImplementation.value)
      && (unit.classImplementation.None? ==> out.classImplementation == [])
      && out.startLine == unit.startLine && out.endLine == unit.endLine
      && ParseAssessment(out.assessment) == Some(Assess(unit.findings))
      && BuildRequestText(unit, DefaultPolicyBullets(today)) <= out.llmPrompt
      && ((forall i :: 0 <= i < |ChosenSnippets(unit.findings)| ==> KeepsFence(ChosenSnippets(unit.findings)[i]))
          ==> ParsePromptSnippets(out.llmPrompt, BuildRequestText(unit, DefaultPolicyBullets(today)))
              == Some(ChosenSnippets(unit.findings)))
  {
    if forall i :: 0 <= i < |ChosenSnippets(unit.findings)| ==> KeepsFence(ChosenSnippets(unit.findings)[i]) {
      ComposeRoundTrip(unit, unit.findings, today);
    }
  }

  /** The handler's loop: `f` applied to every element, in order, one
      result appended per element. */
  method MapInOrder<A, B>(f: A -> B, xs: seq<A>) returns (ys: seq<B>)
    ensures |ys| == |xs|
    ensures forall i :: 0 <= i < |xs| ==> ys[i] == f(xs[i])
  {
    ys := [];
    var k := 0;
    while k < |xs|
      invariant 0 <= k <= |xs|
      invariant |ys| == k
      invariant forall i :: 0 <= i < k ==> ys[i] == f(xs[i])
    {
      ys := ys + [f(xs[k])];
      k := k + 1;
    }
  }

  /** `build_llm_prompt`: the answers line up one-to-one with the units,
      each built from its own unit alone. */
  method BuildLlmPrompt(units: seq<UnitIn>, today: string) returns (results: seq<UnitOut>)
    ensures |results| == |units|
    ensures forall i :: 0 <= i < |units| ==> results[i] == Answer(units[i], today)
  {
    results := MapInOrder(u => Answer(u, today), units);
  }
}
