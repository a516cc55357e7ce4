/** The agent object: its transcript and its variable scope change in place
    as it reasons and acts, and both persist from one run to the next. The
    language model and the interpreter are fixed when the agent is built. */
module Agent {
  import opened Text
  import opened Transcript
  import opened Splitter
  import opened Executor
  import opened Loop

  /** The number of loop iterations a step limit allows: a limit below zero
      allows none, as an empty range does. */
  function Budget(maxSteps: int): (n: nat)
    ensures maxSteps >= 0 ==> n == maxSteps
    ensures maxSteps < 0 ==> n == 0
  {
    if maxSteps < 0 then 0 else maxSteps
  }

  /** How a run of the agent ends, whatever the model and the interpreter
      do: the answer holds the final-answer marker exactly when it is not the
      budget message; the budget message comes after one model call per
      allowed step, with no FINAL_ANSWER step recorded; a final answer is the
      content of the last step recorded, the only FINAL_ANSWER step of the
      run. */
  lemma AgentRunOutcome<Scope>(task: string, history: seq<Step>, scope: Scope, maxSteps: int,
                               complete: string -> string,
                               parse: string -> Option<string>,
                               exec: (string, Scope) -> (Outcome, Scope))
    ensures var r := RunSpec(history, scope, Budget(maxSteps), Body(Prompt(task), complete, parse, exec));
            && (Contains(r.answer, FinalMarker) <==> r.answer != Exhausted)
            && (r.answer == Exhausted ==>
                  |r.contexts| == Budget(maxSteps) &&
                  forall k :: |history| <= k < |r.history| ==> r.history[k].kind != FinalAnswer)
            && (r.answer != Exhausted ==>
                  |r.history| > |history| &&
                  r.history[|r.history| - 1] == Step(FinalAnswer, r.answer) &&
                  forall k :: |history| <= k < |r.history| - 1 ==> r.history[k].kind != FinalAnswer)
  {
    BodyWellFormed(Prompt(task), complete, parse, exec);
    RunOutcome(history, scope, Budget(maxSteps), Body(Prompt(task), complete, parse, exec));
  }

  /** Within one run of the agent, a later call to the model is sent a
      strictly longer context than an earlier one. */
  lemma AgentContextsGrow<Scope>(task: string, history: seq<Step>, scope: Scope, maxSteps: int,
                                 complete: string -> string,
                                 parse: string -> Option<string>,
                                 exec: (string, Scope) -> (Outcome, Scope))
    ensures var r := RunSpec(history, scope, Budget(maxSteps), Body(Prompt(task), complete, parse, exec));
            forall k, l :: 0 <= k < l < |r.contexts| ==> |r.contexts[k]| < |r.contexts[l]|
  {
    var body := Body(Prompt(task), complete, parse, exec);
    BodyWellFormed(Prompt(task), complete, parse, exec);
    var r := RunSpec(history, scope, Budget(maxSteps), body);
    forall k, l | 0 <= k < l < |r.contexts|
      ensures |r.contexts[k]| < |r.contexts[l]|
    {
      ContextsGrow(Prompt(task), history, scope, Budget(maxSteps), body, k, l);
    }
  }

  /** `body` is the agent's iteration for the given prompt and oracles. */
  ghost predicate Agrees<Scope(!new)>(body: (seq<Step>, Scope) -> Turn<Scope>, prompt: string,
                                      complete: string -> string,
                                      parse: string -> Option<string>,
                                      exec: (string, Scope) -> (Outcome, Scope))
  {
    forall h, s {:trigger Iterate(prompt, h, s, complete, parse, exec)} ::
      body(h, s) == Iterate(prompt, h, s, complete, parse, exec)
  }

  /** The turn `body` makes from a history and a scope. */
  ghost function TurnOf<Scope>(body: (seq<Step>, Scope) -> Turn<Scope>, h: seq<Step>, s: Scope): Turn<Scope> {
    body(h, s)
  }

  /** Three appends in a row append the three steps in order. */
  lemma AppendThree(h: seq<Step>, a: Step, b: Step, c: Step)
    ensures h + [a] + [b] + [c] == h + [a, b, c]
  {
  }

  /** One iteration of a loop body that agrees with the agent's iteration,
      given the thought and code the model's completion split into: the turn
      it makes in each of its three cases. */
  lemma IterationFrom<Scope(!new)>(prompt: string, history: seq<Step>, scope: Scope,
                                   complete: string -> string,
                                   parse: string -> Option<string>,
                                   exec: (string, Scope) -> (Outcome, Scope),
                                   body: (seq<Step>, Scope) -> Turn<Scope>,
                                   context: string, thought: string, code: Option<string>)
    requires Agrees(body, prompt, complete, parse, exec)
    requires context == prompt + "\n\n" + Render(history)
    requires Reasoning(thought, code) == SplitResponse(complete(context))
    ensures var t := TurnOf(body, history, scope);
            && t.context == context
            && (Contains(thought, FinalMarker) ==>
                  t.added == [Step(FinalAnswer, thought)] && t.scope == scope && t.answer == Some(thought))
            && (!Contains(thought, FinalMarker) && code.None? ==>
                  t.added == [Step(Thought, thought)] && t.scope == scope && t.answer.None?)
            && (!Contains(thought, FinalMarker) && code.Some? ==>
                  var (observation, after) := Execute(code.value, scope, parse, exec);
                  t.added == [Step(Thought, thought), Step(Action, code.value), Step(Observation, observation)] &&
                  t.scope == after && t.answer.None?)
  {
    assert body(history, scope) == Iterate(prompt, history, scope, complete, parse, exec);
  }

  class ReActAgent<Scope(!new)> {
    /** The language model, answering a context with a completion. */
    const complete: string -> string
    /** The syntax check: the description of the syntax error, if any. */
    const parse: string -> Option<string>
    /** The interpreter: runs a fragment against a scope. */
    const exec: (string, Scope) -> (Outcome, Scope)
    const maxSteps: int

    var history: seq<Step>
    var localVars: Scope

    /** A fresh agent has an empty transcript and the given initial scope;
        the step limit is 10 unless another is given. */
    constructor(complete: string -> string, parse: string -> Option<string>,
                exec: (string, Scope) -> (Outcome, Scope), initialScope: Scope, maxSteps: int := 10)
      ensures this.complete == complete && this.parse == parse && this.exec == exec
      ensures this.maxSteps == maxSteps
      ensures history == [] && localVars == initialScope
    {
      this.complete := complete;
      this.parse := parse;
      this.exec := exec;
      this.maxSteps := maxSteps;
      history := [];
      localVars := initialScope;
    }

    /** Appends one step at the end of the transcript. */
    method AddStep(kind: StepType, content: string)
      modifies this
      ensures history == old(history) + [Step(kind, content)]
      ensures localVars == old(localVars)
    {
      history := history + [Step(kind, content)];
    }

    /** The transcript as text: one block per step, in order, separated by
        newlines. */
    method FormatHistory() returns (text: string)
      ensures text == Render(history)
    {
      var formatted: seq<string> := [];
      for k := 0 to |history|
        invariant |formatted| == k
        invariant forall j :: 0 <= j < k ==> formatted[j] == Block(history[j])
      {
        var step := history[k];
        formatted := formatted + [step.kind.Value() + ":\n" + step.content + "\n"];
      }
      assert formatted == Blocks(history);
      text := Join(formatted, "\n");
    }

    /** Asks the model once and splits its completion into a thought and
        the code to run, if any. The task is not consulted. */
    method Reason(task: string, context: string) returns (thought: string, code: Option<string>)
      ensures Reasoning(thought, code) == SplitResponse(complete(context))
    {
      var response := complete(context);
      var r := SplitResponse(response);
      thought, code := r.thought, r.code;
    }

    /** Runs one fragment against the agent's scope and reports what
        happened; the scope keeps whatever the fragment bound, and a syntax
        error leaves it untouched. */
    method Act(code: string) returns (observation: string)
      modifies this
      ensures (observation, localVars) == Execute(code, old(localVars), parse, exec)
      ensures history == old(history)
    {
      match parse(code)
      case Some(syntaxError) =>
        observation := ErrorPrefix + syntaxError;
      case None =>
        var (outcome, after) := exec(code, localVars);
        localVars := after;
        match outcome
        case Ok(output) =>
          observation := if output != "" then output else NoOutput;
        case Failed(message) =>
          observation := ErrorPrefix + message;
    }

    /** The reason-act-observe loop over the agent's step limit, continuing
        the transcript and scope left by earlier runs. It computes exactly
        the run `RunSpec` describes; `contexts` are the texts sent to the
        model, in order. */
    method Run(task: string) returns (answer: string, ghost contexts: seq<string>)
      modifies this
      ensures var r := RunSpec(old(history), old(localVars), Budget(maxSteps),
                               Body(Prompt(task), complete, parse, exec));
              answer == r.answer && history == r.history && localVars == r.scope && contexts == r.contexts
    {
      var prompt := Prompt(task);
      answer, contexts := Iterations(task, prompt, Body(prompt, complete, parse, exec));
    }

    /** The loop of `Run`, for a loop body `body` that is the agent's
        iteration with the given prompt. */
    method Iterations(task: string, prompt: string, ghost body: (seq<Step>, Scope) -> Turn<Scope>)
      returns (answer: string, ghost contexts: seq<string>)
      modifies this
      requires Agrees(body, prompt, complete, parse, exec)
      ensures var r := RunSpec(old(history), old(localVars), Budget(maxSteps), body);
              answer == r.answer && history == r.history && localVars == r.scope && contexts == r.contexts
    {
      ghost var goal := RunSpec(history, localVars, Budget(maxSteps), body);
      ghost var fuel := Budget(maxSteps);
      contexts := [];
      var i := 0;
      while i < maxSteps
        invariant fuel == Budget(maxSteps) - i
        invariant var rest := RunSpec(history, localVars, fuel, body);
                  goal.answer == rest.answer && goal.history == rest.history &&
                  goal.scope == rest.scope && goal.contexts == contexts + rest.contexts
        decreases maxSteps - i
      {
        ghost var before, scope, sent := history, localVars, contexts;
        var stop, thought, context := Iteration(task, prompt, body);
        contexts := contexts + [context];
        if stop {
          RunStops(before, scope, fuel, body);
          return thought, contexts;
        }
        RunContinues(before, scope, fuel, body);
        ghost var rest := RunSpec(history, localVars, fuel - 1, body);
        assert sent + ([context] + rest.contexts) == contexts + rest.contexts;
        i := i + 1;
        fuel := fuel - 1;
      }
      answer := Exhausted;
    }

    /** One pass of the loop body: render the transcript into the context,
        ask the model, then either record the final answer and stop, or
        record the thought and, when there is code, run it and record the
        action and its observation. */
    method Iteration(task: string, prompt: string, ghost body: (seq<Step>, Scope) -> Turn<Scope>)
      returns (stop: bool, thought: string, context: string)
      modifies this
      requires Agrees(body, prompt, complete, parse, exec)
      ensures var t := TurnOf(body, old(history), old(localVars));
              && context == t.context && history == old(history) + t.added && localVars == t.scope
              && (stop <==> t.answer.Some?) && (stop ==> thought == t.answer.value)
    {
      var formatted := FormatHistory();
      context := prompt + "\n\n" + formatted;
      var code;
      thought, code := Reason(task, context);
      IterationFrom(prompt, history, localVars, complete, parse, exec, body, context, thought, code);
      if Contains(thought, FinalMarker) {
        AddStep(FinalAnswer, thought);
        return true, thought, context;
      }
      AddStep(Thought, thought);
      if code.Some? {
        AddStep(Action, code.value);
        var observation := Act(code.value);
        AddStep(Observation, observation);
        AppendThree(old(history), Step(Thought, thought), Step(Action, code.value), Step(Observation, observation));
      }
      stop := false;
    }
  }
}
