/** The reason-act-observe loop as a function of the agent's state: one
    iteration (`Iterate`) and a whole run over a step budget (`RunSpec`).
    The agent's `Run` method is proved to compute exactly this. */
module Loop {
  import opened Text
  import opened Transcript
  import opened Splitter
  import opened Executor

  const FinalMarker := "FINAL ANSWER:"
  const Exhausted := "Maximum steps" + " reached without" + " finding solution"

  /** The framing prompt built once per run from the task. */
  function Prompt(task: string): string {
    "Task: " + task + "\n\n" +
    "Solve this step by step:\n" +
    "1. Think about the solution\n" +
    "2. Generate Python code to implement it\n" +
    "3. Observe the results and iterate if needed\n\n" +
    "Use these markers:\n" +
    "THOUGHT: for explaining your reasoning\n" +
    "ACTION: for Python code to execute\n" +
    "FINAL ANSWER: when you have solved the task"
  }

  /** What the model is sent: the prompt, a blank line, and the rendered
      history. */
  function Context(prompt: string, history: seq<Step>): string {
    prompt + "\n\n" + Render(history)
  }

  /** One iteration: the context it sent, the steps it appended, the scope
      it left, and the final answer if it found one. */
  datatype Turn<Scope> = Turn(context: string, added: seq<Step>, scope: Scope, answer: Option<string>)

  /** One pass of the loop body: build the context, ask the model, split
      its completion, then either stop on a final answer or record the
      thought and, when there is code, the action and its observation. */
  function Iterate<Scope>(prompt: string, history: seq<Step>, scope: Scope,
                          complete: string -> string,
                          parse: string -> Option<string>,
                          exec: (string, Scope) -> (Outcome, Scope)): Turn<Scope>
  {
    var context := Context(prompt, history);
    var r := SplitResponse(complete(context));
    if Contains(r.thought, FinalMarker) then
      Turn(context, [Step(FinalAnswer, r.thought)], scope, Some(r.thought))
    else if r.code.None? then
      Turn(context, [Step(Thought, r.thought)], scope, None)
    else
      var (observation, after) := Execute(r.code.value, scope, parse, exec);
      Turn(context, [Step(Thought, r.thought), Step(Action, r.code.value), Step(Observation, observation)],
           after, None)
  }

  /** When one iteration stops. It always sends the prompt and the rendered
      history, and appends one step or three. A thought holding the
      final-answer marker ends the run with a single FINAL_ANSWER step
      carrying that thought, even when code was parsed, and nothing runs. */
  lemma IterationShape<Scope>(prompt: string, history: seq<Step>, scope: Scope,
                              complete: string -> string,
                              parse: string -> Option<string>,
                              exec: (string, Scope) -> (Outcome, Scope))
    ensures var t := Iterate(prompt, history, scope, complete, parse, exec);
            var r := SplitResponse(complete(t.context));
            && t.context == Context(prompt, history)
            && (|t.added| == 1 || |t.added| == 3)
            && (t.answer.Some? <==> Contains(r.thought, FinalMarker))
            && (t.answer.Some? ==> t.answer.value == r.thought && t.added == [Step(FinalAnswer, r.thought)])
            && (|t.added| == 1 ==> t.scope == scope)
  {
  }

  /** What one iteration records when it does not stop: a THOUGHT step,
      followed by the ACTION and its non-empty OBSERVATION exactly when the
      completion carried code; no FINAL_ANSWER step. */
  lemma IterationRecords<Scope>(prompt: string, history: seq<Step>, scope: Scope,
                                complete: string -> string,
                                parse: string -> Option<string>,
                                exec: (string, Scope) -> (Outcome, Scope))
    ensures var t := Iterate(prompt, history, scope, complete, parse, exec);
            var r := SplitResponse(complete(t.context));
            t.answer.None? ==>
              && t.added[0] == Step(Thought, r.thought)
              && (|t.added| == 3 <==> r.code.Some?)
              && (|t.added| == 3 ==>
                    t.added[1] == Step(Action, r.code.value) &&
                    t.added[2].kind == Observation && t.added[2].content != "")
              && (forall st :: st in t.added ==> st.kind != FinalAnswer)
  {
    var context := Context(prompt, history);
    var r := SplitResponse(complete(context));
    if !Contains(r.thought, FinalMarker) {
      if r.code.Some? {
        var (observation, after) := Execute(r.code.value, scope, parse, exec);
        assert Iterate(prompt, history, scope, complete, parse, exec).added
            == [Step(Thought, r.thought), Step(Action, r.code.value), Step(Observation, observation)];
      } else {
        assert Iterate(prompt, history, scope, complete, parse, exec).added == [Step(Thought, r.thought)];
      }
    }
  }

  /** The loop body with the agent's prompt and oracles fixed: a function
      of the history and the scope alone. */
  function Body<Scope>(prompt: string,
                       complete: string -> string,
                       parse: string -> Option<string>,
                       exec: (string, Scope) -> (Outcome, Scope)): (seq<Step>, Scope) -> Turn<Scope>
  {
    (h, s) => Iterate(prompt, h, s, complete, parse, exec)
  }

  /** The shape of what every iteration appends, whatever the model says:
      one step or three; when it stops, the single FINAL_ANSWER step carrying
      an answer other than the budget message; otherwise no FINAL_ANSWER
      step. */
  predicate Shaped<Scope>(t: Turn<Scope>) {
    && (|t.added| == 1 || |t.added| == 3)
    && (t.answer.Some? ==> t.answer.value != Exhausted && t.added == [Step(FinalAnswer, t.answer.value)])
    && (t.answer.None? ==> forall st :: st in t.added ==> st.kind != FinalAnswer)
  }

  /** An iteration only stops with an answer holding the final-answer marker. */
  predicate Marked<Scope>(t: Turn<Scope>) {
    t.answer.Some? ==> Contains(t.answer.value, FinalMarker)
  }

  /** The agent's rendering of a history into a context, for a fixed
      prompt. */
  function ContextFor(prompt: string): seq<Step> -> string {
    h => Context(prompt, h)
  }

  /** An iteration sends the rendering `view` gives of the history it
      started from. */
  predicate SentFrom<Scope>(view: seq<Step> -> string, history: seq<Step>, t: Turn<Scope>) {
    t.context == view(history)
  }

  /** The agent's loop body has all three properties on every history and
      scope. */
  lemma BodyWellFormed<Scope>(prompt: string,
                              complete: string -> string,
                              parse: string -> Option<string>,
                              exec: (string, Scope) -> (Outcome, Scope))
    ensures forall h, s :: Shaped(Body(prompt, complete, parse, exec)(h, s))
    ensures forall h, s :: Marked(Body(prompt, complete, parse, exec)(h, s))
    ensures forall h, s :: SentFrom(ContextFor(prompt), h, Body(prompt, complete, parse, exec)(h, s))
  {
    forall h, s
      ensures Shaped(Body(prompt, complete, parse, exec)(h, s))
      ensures Marked(Body(prompt, complete, parse, exec)(h, s))
      ensures SentFrom(ContextFor(prompt), h, Body(prompt, complete, parse, exec)(h, s))
    {
      IterationShape(prompt, h, s, complete, parse, exec);
      IterationRecords(prompt, h, s, complete, parse, exec);
      var t := Iterate(prompt, h, s, complete, parse, exec);
      if t.answer.Some? {
        FinalIsNotExhausted(t.answer.value);
      }
    }
  }

  /** A whole run: the answer, the history and scope it leaves, the contexts
      sent to the model in order, and the history length at each call. */
  datatype RunResult<Scope> =
    RunResult(answer: string, history: seq<Step>, scope: Scope, contexts: seq<string>, marks: seq<nat>)

  /** The loop over a budget of `fuel` iterations of `body`, starting from
      the agent's current history and scope: it stops at the first answer,
      and otherwise returns the budget message once the budget is spent. */
  function RunSpec<Scope>(history: seq<Step>, scope: Scope, fuel: nat,
                          body: (seq<Step>, Scope) -> Turn<Scope>): (r: RunResult<Scope>)
    ensures |r.contexts| == |r.marks| <= fuel
    ensures |r.history| >= |history| && r.history[..|history|] == history
    decreases fuel
  {
    if fuel == 0 then RunResult(Exhausted, history, scope, [], [])
    else
      var t := body(history, scope);
      if t.answer.Some? then
        RunResult(t.answer.value, history + t.added, t.scope, [t.context], [|history|])
      else
        var r := RunSpec(history + t.added, t.scope, fuel - 1, body);
        assert r.history[..|history|] == (r.history[..|history + t.added|])[..|history|];
        RunResult(r.answer, r.history, r.scope, [t.context] + r.contexts, [|history|] + r.marks)
  }

  /** A run whose first iteration stops ends with that iteration. */
  lemma RunStops<Scope>(history: seq<Step>, scope: Scope, fuel: nat,
                        body: (seq<Step>, Scope) -> Turn<Scope>)
    requires fuel > 0 && body(history, scope).answer.Some?
    ensures var t, r := body(history, scope), RunSpec(history, scope, fuel, body);
            && r.answer == t.answer.value && r.history == history + t.added
            && r.scope == t.scope && r.contexts == [t.context]
  {
  }

  /** A run whose first iteration does not stop is the rest of the run,
      from the history and scope that iteration left, after that
      iteration's context. */
  lemma RunContinues<Scope>(history: seq<Step>, scope: Scope, fuel: nat,
                            body: (seq<Step>, Scope) -> Turn<Scope>)
    requires fuel > 0 && body(history, scope).answer.None?
    ensures var t, r := body(history, scope), RunSpec(history, scope, fuel, body);
            var rest := RunSpec(history + t.added, t.scope, fuel - 1, body);
            && r.answer == rest.answer && r.history == rest.history
            && r.scope == rest.scope && r.contexts == [t.context] + rest.contexts
  {
  }

  /** The budget message has no capital F. */
  lemma ExhaustedHasNoF()
    ensures 'F' !in Exhausted
  {
    assert 'F' !in "Maximum steps";
    assert 'F' !in " reached without";
    assert 'F' !in " finding solution";
  }

  /** The budget message cannot be mistaken for a final answer: any text
      holding the final-answer marker differs from it. */
  lemma FinalIsNotExhausted(s: string)
    requires Contains(s, FinalMarker)
    ensures s != Exhausted
  {
    var i :| OccursAt(s, FinalMarker, i);
    assert s[i] == s[i..i + |FinalMarker|][0] == 'F';
    ExhaustedHasNoF();
  }

  /** A run's answer is either the budget message or an answer some
      iteration produced, which holds the final-answer marker. */
  lemma {:induction false} RunAnswerMarked<Scope>(history: seq<Step>, scope: Scope, fuel: nat,
                                                  body: (seq<Step>, Scope) -> Turn<Scope>)
    requires forall h, s :: Marked(body(h, s))
    ensures var r := RunSpec(history, scope, fuel, body);
            r.answer == Exhausted || Contains(r.answer, FinalMarker)
    decreases fuel
  {
    if fuel > 0 {
      var t := body(history, scope);
      if t.answer.None? {
        RunAnswerMarked(history + t.added, t.scope, fuel - 1, body);
      }
    }
  }

  /** A run ends in one of two ways. Either the model produced a final
      answer: the answer holds the marker and the last step appended is the
      FINAL_ANSWER step carrying it, the only such step of the run. Or it did
      not: the answer is the budget message, the model was consulted once per
      unit of budget, and no FINAL_ANSWER step was appended. */
  lemma {:induction false} RunOutcome<Scope>(history: seq<Step>, scope: Scope, fuel: nat,
                          body: (seq<Step>, Scope) -> Turn<Scope>)
    requires forall h, s :: Shaped(body(h, s))
    requires forall h, s :: Marked(body(h, s))
    ensures var r := RunSpec(history, scope, fuel, body);
            && (Contains(r.answer, FinalMarker) <==> r.answer != Exhausted)
            && (r.answer == Exhausted ==>
                  |r.contexts| == fuel &&
                  forall k :: |history| <= k < |r.history| ==> r.history[k].kind != FinalAnswer)
            && (r.answer != Exhausted ==>
                  |r.history| > |history| &&
                  r.history[|r.history| - 1] == Step(FinalAnswer, r.answer) &&
                  forall k :: |history| <= k < |r.history| - 1 ==> r.history[k].kind != FinalAnswer)
  {
    var r := RunSpec(history, scope, fuel, body);
    RunAnswerMarked(history, scope, fuel, body);
    if Contains(r.answer, FinalMarker) {
      FinalIsNotExhausted(r.answer);
    }
    RunEnding(history, scope, fuel, body);
  }

  /** How a run that started at history length `start` ended, told apart by
      its answer: with the budget message after `calls == fuel` calls and no
      FINAL_ANSWER step past `start`, or with the answer carried by the last
      step of `full`, the only FINAL_ANSWER step past `start`. */
  predicate Ended(start: nat, full: seq<Step>, answer: string, calls: nat, fuel: nat) {
    && (answer == Exhausted ==>
          calls == fuel &&
          forall k :: start <= k < |full| ==> full[k].kind != FinalAnswer)
    && (answer != Exhausted ==>
          |full| > start &&
          full[|full| - 1] == Step(FinalAnswer, answer) &&
          forall k :: start <= k < |full| - 1 ==> full[k].kind != FinalAnswer)
  }

  /** How a run ends, told apart by the answer's value. */
  lemma {:induction false} RunEnding<Scope>(history: seq<Step>, scope: Scope, fuel: nat,
                                            body: (seq<Step>, Scope) -> Turn<Scope>)
    requires forall h, s :: Shaped(body(h, s))
    ensures var r := RunSpec(history, scope, fuel, body);
            Ended(|history|, r.history, r.answer, |r.contexts|, fuel)
    decreases fuel
  {
    var r := RunSpec(history, scope, fuel, body);
    if fuel > 0 {
      var t := body(history, scope);
      assert Shaped(t);
      var h := history + t.added;
      if t.answer.Some? {
        assert r.answer == t.answer.value && r.history == history + [Step(FinalAnswer, r.answer)];
        assert r.history[|r.history| - 1] == Step(FinalAnswer, r.answer);
      } else {
        var r' := RunSpec(h, t.scope, fuel - 1, body);
        RunEnding(h, t.scope, fuel - 1, body);
        assert r.answer == r'.answer && r.history == r'.history && |r.contexts| == 1 + |r'.contexts|;
        EndedAfter(history, t.added, r'.history, r'.answer, |r'.contexts|, fuel - 1);
      }
    }
  }

  /** A run that continues after an iteration appending no FINAL_ANSWER step
      ends as the rest of the run does, with one more call. */
  lemma EndedAfter(history: seq<Step>, added: seq<Step>, full: seq<Step>, answer: string, calls: nat, fuel: nat)
    requires |full| >= |history + added| && full[..|history + added|] == history + added
    requires added != [] && forall st :: st in added ==> st.kind != FinalAnswer
    requires Ended(|history + added|, full, answer, calls, fuel)
    ensures Ended(|history|, full, answer, calls + 1, fuel + 1)
  {
    var h := history + added;
    forall k | |history| <= k < |h|
      ensures full[k].kind != FinalAnswer
    {
      assert full[k] == h[k] == added[k - |history|];
    }
  }

  /** What the model sees on every call: for a loop body that sends the
      rendering `view` of its history (for the agent, the prompt followed by
      the rendered history), the k-th context renders the history as it stood
      at the k-th call, which is at least the history the run started from and
      is followed by more steps; the first call sees exactly the history the
      run started from. */
  lemma {:induction false} RunContexts<Scope>(view: seq<Step> -> string, history: seq<Step>, scope: Scope, fuel: nat,
                                              body: (seq<Step>, Scope) -> Turn<Scope>)
    requires forall h, s :: Shaped(body(h, s))
    requires forall h, s :: SentFrom(view, h, body(h, s))
    ensures var r := RunSpec(history, scope, fuel, body);
            && (r.marks != [] ==> r.marks[0] == |history|)
            && Sees(view, r.history, r.contexts, r.marks, |history|)
    decreases fuel
  {
    var r := RunSpec(history, scope, fuel, body);
    if fuel > 0 {
      var t := body(history, scope);
      var h := history + t.added;
      assert t.context == view(r.history[..|history|]) by {
        assert SentFrom(view, history, t);
        assert r.history[..|history|] == history;
      }
      if t.answer.Some? {
        assert r.history == h && r.marks == [|history|] + [] && r.contexts == [t.context] + [];
        SeesCons(view, r.history, t.context, |history|, [], [], |h|);
      } else {
        RunContexts(view, h, t.scope, fuel - 1, body);
        var r' := RunSpec(h, t.scope, fuel - 1, body);
        assert r.history == r'.history && r.contexts == [t.context] + r'.contexts && r.marks == [|history|] + r'.marks;
        SeesCons(view, r'.history, t.context, |history|, r'.contexts, r'.marks, |h|);
      }
    }
  }

  /** Every context in `contexts` renders a prefix of `full`, of the length
      recorded at the same position in `marks`, which is at least `from` and
      leaves at least one step of `full` after it. */
  predicate Sees(view: seq<Step> -> string, full: seq<Step>, contexts: seq<string>, marks: seq<nat>, from: nat) {
    |contexts| == |marks| &&
    forall k :: 0 <= k < |marks| ==>
      from <= marks[k] < |full| && contexts[k] == view(full[..marks[k]])
  }

  /** A context taken before the others extends what they see. */
  lemma SeesCons(view: seq<Step> -> string, full: seq<Step>, context: string, mark: nat,
                 contexts: seq<string>, marks: seq<nat>, from: nat)
    requires Sees(view, full, contexts, marks, from)
    requires mark < from && mark < |full| && context == view(full[..mark])
    ensures Sees(view, full, [context] + contexts, [mark] + marks, mark)
  {
    var cs, ms := [context] + contexts, [mark] + marks;
    forall k | 0 <= k < |ms|
      ensures mark <= ms[k] < |full| && cs[k] == view(full[..ms[k]])
    {
      if k > 0 {
        assert ms[k] == marks[k - 1] && cs[k] == contexts[k - 1];
      }
    }
  }

  /** One iteration appends one step or three. */
  predicate Advances(before: nat, after: nat) {
    after == before + 1 || after == before + 3
  }

  /** Each history length in `marks` is followed by one or three appended
      steps before the next one, and the last one by one or three before
      `end`. */
  predicate Chain(marks: seq<nat>, end: nat)
    decreases |marks|
  {
    marks == [] || (Advances(marks[0], if |marks| == 1 then end else marks[1]) && Chain(marks[1..], end))
  }

  /** How the history grows over a run: a budget of zero leaves it alone and
      asks nothing; otherwise every call to the model is followed by one or
      three appended steps before the next call, and by one or three after the
      last call. */
  lemma {:induction false} RunGrowth<Scope>(history: seq<Step>, scope: Scope, fuel: nat,
                                            body: (seq<Step>, Scope) -> Turn<Scope>)
    requires forall h, s :: Shaped(body(h, s))
    ensures var r := RunSpec(history, scope, fuel, body);
            && (r.marks == [] <==> fuel == 0)
            && (fuel == 0 ==> r.history == history && r.scope == scope && r.answer == Exhausted)
            && (r.marks != [] ==> r.marks[0] == |history|)
            && Chain(r.marks, |r.history|)
    decreases fuel
  {
    var r := RunSpec(history, scope, fuel, body);
    if fuel > 0 {
      var t := body(history, scope);
      var h := history + t.added;
      if t.answer.None? {
        RunGrowth(h, t.scope, fuel - 1, body);
        var r' := RunSpec(h, t.scope, fuel - 1, body);
        assert r.history == r'.history && r.marks == [|history|] + r'.marks;
        assert r.marks[1..] == r'.marks;
        if r'.marks == [] {
          assert r.history == h;
        }
      }
    }
  }

  /** The contexts of one run grow strictly from call to call, so no two
      calls to the model within a run are sent the same context. */
  lemma {:induction false} ContextsGrow<Scope>(prompt: string, history: seq<Step>, scope: Scope, fuel: nat,
                                               body: (seq<Step>, Scope) -> Turn<Scope>, k: nat, l: nat)
    requires forall h, s :: Shaped(body(h, s))
    requires forall h, s :: SentFrom(ContextFor(prompt), h, body(h, s))
    requires k < l < |RunSpec(history, scope, fuel, body).contexts|
    ensures var r := RunSpec(history, scope, fuel, body);
            |r.contexts[k]| < |r.contexts[l]|
  {
    var r := RunSpec(history, scope, fuel, body);
    RunContexts(ContextFor(prompt), history, scope, fuel, body);
    RunGrowth(history, scope, fuel, body);
    MarksIncrease(r.marks, |r.history|, k, l);
    assert r.contexts[k] == Context(prompt, r.history[..r.marks[k]]);
    assert r.contexts[l] == Context(prompt, r.history[..r.marks[l]]);
    LongerPrefixLongerContext(prompt, r.history, r.marks[k], r.marks[l]);
  }

  lemma LongerPrefixLongerContext(prompt: string, history: seq<Step>, a: nat, b: nat)
    requires a < b <= |history|
    ensures |Context(prompt, history[..a])| < |Context(prompt, history[..b])|
  {
    var before, after := history[..a], history[..b];
    assert after == before + after[a..];
    RenderGrows(before, after[a..]);
  }

  /** Along a chain the history lengths strictly increase. */
  lemma {:induction false} MarksIncrease(marks: seq<nat>, end: nat, k: nat, l: nat)
    requires Chain(marks, end) && k < l < |marks|
    ensures marks[k] < marks[l]
    decreases l
  {
    if k > 0 {
      MarksIncrease(marks[1..], end, k - 1, l - 1);
    } else if l > 1 {
      MarksIncrease(marks[1..], end, 0, l - 1);
    }
  }
}
