/** The request and response records of the prompt builder (app.py lines
    14-45), already validated: optional text fields are `Option<string>`,
    line numbers are integers defaulting to zero. */
module Types {
  import opened Wrappers

  /** One static-analysis finding. Only `suggestion` and `snippet` feed the
      prompt; the other fields are carried but never read by the core. */
  datatype FindingIn = FindingIn(
    pgmName: Option<string>,
    incName: Option<string>,
    unitType: Option<string>,
    name: Option<string>,
    classImplementation: Option<string>,
    issueType: Option<string>,
    severity: Option<string>,
    message: Option<string>,
    suggestion: Option<string>,
    snippet: Option<string>)

  /** A source unit with its findings, in the order the caller listed them. */
  datatype UnitIn = UnitIn(
    pgmName: string,
    incName: string,
    unitType: string,
    name: Option<string>,
    classImplementation: Option<string>,
    startLine: int,
    endLine: int,
    findings: seq<FindingIn>)

  /** The per-unit answer: identity echoed, plus assessment and prompt. */
  datatype UnitOut = UnitOut(
    pgmName: string,
    incName: string,
    unitType: string,
    name: string,
    classImplementation: string,
    startLine: int,
    endLine: int,
    assessment: string,
    llmPrompt: string)
}
