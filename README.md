# A verified model of the ReAct agent loop

This project models `misteragent/react.py`: an agent that solves a task by
alternating between asking a language model for a thought, running the Python
code the model proposes, and recording what happened.

The parts modelled are these:

- the typed steps of the transcript and how they render into the model's context;
- how a completion is split on the `ACTION:` marker;
- how the outcome of running a fragment becomes an observation;
- the loop itself, over a step budget.

The language model, the syntax check and the interpreter are oracles passed in
as functions. The rest of the core is modelled as the code has it, except
for the points listed under "Left out".

The modules follow the program's structure:

- `Text` holds the string operations the code relies on: Python's `in`,
  `str.split`, `str.join` and `str.strip`.
- `Transcript` holds `StepType`, `ReActStep` (here `Step`) and the rendering
  done by `_format_history`.
- `Splitter` holds the splitting done by `_reason`.
- `Executor` holds the result shaping done by `_act`.
- `Loop` holds one iteration of `run` and a whole run, as functions of the
  agent's state. `RunSpec` is a run of any loop body. `Body` is the agent's
  own loop body.
- `Agent` holds the `ReActAgent` class. Its transcript (`history`) and
  variable scope (`localVars`) are fields that its methods update in place.
  `Run` is proved to compute exactly what `RunSpec` describes for the agent's
  loop body.

The properties of runs are proved once, in `Loop`, for every loop body that
has three properties:

- it is shaped (`Loop.Shaped`): it appends one step or three; a turn that
  stops appends exactly the step `Step(FinalAnswer, answer)`, and its answer
  is not the budget message; a turn that does not stop appends no
  FINAL_ANSWER step;
- it stops only with an answer that holds the final-answer marker;
- it sends the prompt followed by the rendered history.

`Loop.BodyWellFormed` proves that the agent's loop body has all three,
whatever the model and the interpreter do. `Agent.AgentRunOutcome` and
`Agent.AgentContextsGrow` state the resulting promises for the agent's own
loop body.

Some behaviour of the code is easy to misread. The model follows the code in
each case:

- The code fragment is the second piece of `split("ACTION:")`, stripped. It
  runs from the first marker to the second marker, if there is one, not to
  the end of the completion. Anything after a second marker is dropped.
- Without the marker, the whole completion is the thought and it is not
  stripped. With the marker, the thought is stripped.
- The reasoning step is tagged `THOUGHT` and the code step `ACTION`.
- Rendered steps are joined with a single `"\n"`. Each block already ends in
  a newline, so consecutive blocks are separated by one blank line.
- `history` and `local_vars` are never reset by `run`. A second run continues
  the transcript and the scope of the first.
- A negative `max_steps` gives an empty `range`. The loop then does not run and
  the budget message is returned at once.

## Model

| member | source | states |
|---|---|---|
| Text.IndexOf | misteragent/react.py:83 | the result is the leftmost occurrence of the pattern, or there is none at all |
| Text.Contains | misteragent/react.py:83 | `pat in s` holds exactly when the pattern occurs at some index |
| Text.SplitPieces | misteragent/react.py:84-85 | `split` gives a single piece exactly when the separator is absent, and no piece contains the separator |
| Text.JoinSplit | misteragent/react.py:84-85 | joining the pieces of `split` with the separator gives back the string |
| Text.JoinConcat | misteragent/react.py:65 | joining two non-empty lists puts one separator between their joins |
| Text.Strip | misteragent/react.py:84-85 | the result occurs in the input with only whitespace before and after it, and has no whitespace at either end |
| Text.StripPadded | misteragent/react.py:84-85 | stripping removes exactly the whitespace padding around a text with no whitespace at its own ends |
| Text.StripNewline | misteragent/react.py:84-85 | a newline before or after such a text is stripped away |
| Text.StripKeepsAbsence | misteragent/react.py:84-85 | stripping cannot introduce a pattern the text did not contain |
| Text.StripIdempotent | misteragent/react.py:84-85 | stripping twice is stripping once |
| Transcript.StepType.Value | misteragent/react.py:10-14 | every tag is non-empty and holds neither a colon nor a newline |
| Transcript.ReadTag | misteragent/react.py:10-14 | a block can be read back: the first colon ends the tag, the first newline follows it, and the tag names the step's kind |
| Transcript.ValueInjective | misteragent/react.py:10-14 | distinct step kinds have distinct tags |
| Transcript.Block | misteragent/react.py:64 | a step's block starts with its tag, ends with a newline, and is three characters longer than tag and content together |
| Transcript.RenderEmpty | misteragent/react.py:60-65 | the rendered history is empty exactly when the history is |
| Transcript.RenderConcat | misteragent/react.py:60-65 | rendering a history in two parts joins the two renderings with one newline, in insertion order |
| Transcript.RenderAppend | misteragent/react.py:58-65 | appending a step adds its block at the end of the rendering, after a newline unless the history was empty |
| Transcript.RenderGrows | misteragent/react.py:60-65 | appending steps makes the earlier rendering a proper prefix of the later one |
| Transcript.RenderThree | misteragent/react.py:60-65 | three steps render as their three blocks, separated by newlines |
| Transcript.RenderExample | misteragent/react.py:60-65 | a thought, an action and an observation render as `THOUGHT:`, `ACTION:` and `OBSERVATION:` blocks in that order |
| Splitter.SplitResponse | misteragent/react.py:83-88 | without the marker, the completion itself and no code; with it, code is present, and the thought and the code are both stripped and free of the marker |
| Splitter.SplitResponseMarked | misteragent/react.py:84-86 | with the first marker at `i`, the thought is the stripped text before `i`, and the code is the stripped text after the marker, cut at the next marker if there is one |
| Splitter.SplitResponseExample | misteragent/react.py:83-86 | a thought, the marker on its own line and a fragment split back into that thought and that fragment |
| Splitter.NoMarkerAcrossNewline | misteragent/react.py:83 | two marker-free texts joined by a newline hold no marker |
| Executor.Observation | misteragent/react.py:111-115 | the observation is never empty; non-empty output comes back verbatim, empty output gives the fixed sentinel, and an exception gives the error prefix followed by its description |
| Executor.Execute | misteragent/react.py:105-115 | a syntax error is reported before anything runs and leaves the scope as it was; otherwise the observation of the run's outcome and the scope the run left |
| Loop.IterationShape | misteragent/react.py:143-150 | an iteration sends the prompt and the rendered history and appends one step or three; it stops exactly when the thought holds `FINAL ANSWER:`, with a single FINAL_ANSWER step carrying the thought, and nothing runs then |
| Loop.IterationRecords | misteragent/react.py:152-158 | a non-final iteration appends a THOUGHT step, then ACTION and a non-empty OBSERVATION exactly when there was code, and no FINAL_ANSWER step |
| Loop.BodyWellFormed | misteragent/react.py:142-158 | the agent's loop body is shaped (one step or three; a stopping turn appends exactly `Step(FinalAnswer, answer)` with an answer other than the budget message; a continuing turn appends no FINAL_ANSWER step), stops only with a marked answer, and sends the prompt followed by the rendered history |
| Loop.RunSpec | misteragent/react.py:142-160 | a run calls the model at most once per unit of budget and only appends to the history it started from |
| Loop.RunStops | misteragent/react.py:148-150 | a run whose first iteration stops ends with that iteration's answer, history and scope, after one call |
| Loop.RunContinues | misteragent/react.py:152-158 | a run whose first iteration does not stop is the rest of the run from the state that iteration left |
| Loop.FinalIsNotExhausted | misteragent/react.py:148-160 | no text holding the final-answer marker equals the budget message |
| Loop.RunAnswerMarked | misteragent/react.py:148-160 | a run returns either the budget message or an answer holding the final-answer marker |
| Loop.RunOutcome | misteragent/react.py:142-160 | the answer holds the marker exactly when it is not the budget message; the budget message comes after exactly one model call per unit of budget with no FINAL_ANSWER step appended; a final answer is the content of the last step appended, the only FINAL_ANSWER step of the run |
| Loop.RunEnding | misteragent/react.py:142-160 | the same two endings, told apart by the answer's value, for any shaped loop body: one that appends one step or three, appends exactly `Step(FinalAnswer, answer)` when it stops with an answer other than the budget message, and appends no FINAL_ANSWER step otherwise |
| Loop.RunContexts | misteragent/react.py:142-143 | the k-th context renders the history as it stood at the k-th call; the first call sees the history the run started from |
| Loop.RunGrowth | misteragent/react.py:142-160 | a zero budget asks nothing, leaves the history and the scope as they were and gives the budget message; otherwise each call is followed by one or three appended steps before the next call and after the last |
| Loop.ContextsGrow | misteragent/react.py:142-158 | the contexts of one run grow strictly in length from call to call, so no two calls are sent the same context |
| Loop.LongerPrefixLongerContext | misteragent/react.py:143 | a longer prefix of the history gives a longer context |
| Loop.MarksIncrease | misteragent/react.py:142-158 | the history lengths at successive calls strictly increase |
| Agent.AgentRunOutcome | misteragent/react.py:142-160 | for the agent's loop body, whatever the model and interpreter do: the answer holds `FINAL ANSWER:` exactly when it is not the budget message; the budget message comes after one model call per allowed step with no FINAL_ANSWER step recorded; a final answer is the content of the last step recorded, the only FINAL_ANSWER step of the run |
| Agent.AgentContextsGrow | misteragent/react.py:142-143 | within one run of the agent, a later call to the model is sent a strictly longer context than an earlier one |
| Agent.IterationFrom | misteragent/react.py:143-158 | the turn the agent's iteration makes in each of its three cases, given the thought and code the completion split into |
| Agent.ReActAgent.constructor | misteragent/react.py:37-48 | a new agent has an empty history, the given initial scope, the given model and oracles, and the given step limit, 10 by default |
| Agent.ReActAgent.AddStep | misteragent/react.py:50-58 | the history grows by exactly the given step, at the end; the scope is unchanged |
| Agent.ReActAgent.FormatHistory | misteragent/react.py:60-65 | the loop's text is the rendering of the history |
| Agent.ReActAgent.Reason | misteragent/react.py:67-88 | the thought and code are the split of the model's completion of the context |
| Agent.ReActAgent.Act | misteragent/react.py:90-118 | the observation and the new scope are those `Execute` gives from the old scope; the history is unchanged |
| Agent.ReActAgent.Iteration | misteragent/react.py:143-158 | one pass of the loop body leaves the history and scope that the agent's iteration gives from the old ones, sent its context, and stops exactly when that iteration has an answer |
| Agent.ReActAgent.Iterations | misteragent/react.py:142-160 | the loop, for a loop body that agrees with the agent's iteration, computes exactly the run `RunSpec` gives from the old history and scope |
| Agent.ReActAgent.Run | misteragent/react.py:120-160 | answer, history, scope and the contexts sent are exactly those of `RunSpec` over the budget `max(max_steps, 0)`, from the history and scope left by earlier runs |

## Left out

- The language model client (`get_completion`, line 81) is a function from context to completion. A client that answers the same context differently on two calls is not captured. Within one run no two calls share a context (`Loop.ContextsGrow`). An exception raised by the client, which propagates out of `run`, is not modelled.
- `ast.parse` and `exec` (lines 107 and 110) are oracles. `parse` gives the description of a syntax error, if any. `exec` gives the outcome, printed text or the description of an exception, and the scope the fragment leaves behind. Python's semantics, the fresh globals dictionary and exceptions that are not `Exception` subclasses are outside the model.
- Redirecting and restoring `sys.stdout` (lines 101-103 and 117-118) is process-global I/O. The interpreter oracle returns the printed text directly.
- The variable scope is a type parameter of the agent. Its contents are never inspected. Python starts every agent with an empty dictionary; the model's constructor takes the initial scope as a parameter instead, since the type has no "empty" value of its own.
- The whitespace that `str.strip()` removes is the fixed set `Text.IsSpace` lists: the characters CPython treats as whitespace. Surrogate code points, which Python strings may hold, are not modelled.
- `Loop.Prompt` reproduces the framing prompt of lines 130-140 verbatim. Nothing is proved about its text.
- `CodeExecutionError` (lines 21-23) and the imported `system_prompt` (line 8) are never used by the code, so they are not modelled.
- `max_steps` is fixed when the agent is built. Reassigning the attribute between runs is not modelled.
- Text.Split: its own contract only promises at least one piece. What the pieces are is stated by `Text.SplitPieces`, `Text.JoinSplit` and `Splitter.SplitResponseMarked`.
