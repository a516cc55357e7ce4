/** The acting phase: a code fragment is checked for syntax, run against the
    agent's persistent variable scope, and whatever happens is turned into an
    observation string. The interpreter itself is not modelled: its parser
    and its `exec` are oracles passed in. */
module Executor {
  import opened Text

  /** How a run of the interpreter ended: the text it printed, or the
      description of the exception it raised. */
  datatype Outcome = Ok(output: string) | Failed(message: string)

  const NoOutput := "Code executed successfully with no output"
  const ErrorPrefix := "Error executing code: "

  /** The observation for one outcome. It is never empty; printed text comes
      back verbatim, silence becomes the fixed sentinel, and an exception's
      description is recoverable after the error prefix. */
  function Observation(outcome: Outcome): (obs: string)
    ensures obs != ""
    ensures outcome.Ok? && outcome.output != "" ==> obs == outcome.output
    ensures outcome.Ok? && outcome.output == "" ==> obs == NoOutput
    ensures outcome.Failed? ==>
              |obs| >= |ErrorPrefix| && obs[..|ErrorPrefix|] == ErrorPrefix &&
              obs[|ErrorPrefix|..] == outcome.message
  {
    match outcome
    case Ok(output) => if output != "" then output else NoOutput
    case Failed(message) => ErrorPrefix + message
  }

  /** Running one fragment: `parse` gives the syntax error's description, if
      any, and `exec` runs a fragment that parsed against the scope, giving
      its outcome and the scope it leaves behind. A syntax error is reported
      before anything runs, so the scope is then left as it was. */
  function Execute<Scope>(code: string, scope: Scope,
                          parse: string -> Option<string>,
                          exec: (string, Scope) -> (Outcome, Scope)): (r: (string, Scope))
    ensures r.0 != ""
    ensures parse(code).Some? ==> r == (Observation(Failed(parse(code).value)), scope)
    ensures parse(code).None? ==> r == (Observation(exec(code, scope).0), exec(code, scope).1)
  {
    match parse(code)
    case Some(syntaxError) => (Observation(Failed(syntaxError)), scope)
    case None =>
      var (outcome, after) := exec(code, scope);
      (Observation(outcome), after)
  }
}
