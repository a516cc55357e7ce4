/** The reasoning transcript: typed steps and the text block they render to
    when the history is replayed into the model's context. */
module Transcript {
  import opened Text

  /** The kind of a step; `Value` is the tag written in front of its content. */
  datatype StepType = Thought | Action | Observation | FinalAnswer {
    function Value(): (v: string)
      ensures v != [] && ':' !in v && '\n' !in v
    {
      match this
      case Thought => "THOUGHT"
      case Action => "ACTION"
      case Observation => "OBSERVATION"
      case FinalAnswer => "FINAL_ANSWER"
    }
  }

  /** One entry of the history: immutable once built. */
  datatype Step = Step(kind: StepType, content: string)

  /** The text one step renders to: its tag, a colon and a newline, its
      content, and a closing newline. */
  function Block(step: Step): (b: string)
    ensures |b| == |step.kind.Value()| + |step.content| + 3
    ensures b[..|step.kind.Value()|] == step.kind.Value()
    ensures b[|b| - 1] == '\n'
  {
    step.kind.Value() + ":\n" + step.content + "\n"
  }

  /** A block can be read back: the tag runs up to the first colon, the
      first newline follows that colon, and the tag names the step's kind. */
  lemma ReadTag(step: Step)
    ensures var b, i := Block(step), |step.kind.Value()|;
            && IndexOf(b, ":") == Some(i) && IndexOf(b, "\n") == Some(i + 1)
            && b[..i] == step.kind.Value()
            && forall kind: StepType :: kind.Value() == b[..i] ==> kind == step.kind
  {
    var v, b := step.kind.Value(), Block(step);
    var i := |v|;
    assert b == v + ":\n" + step.content + "\n";
    assert b[..i] == v;
    assert b[i..i + 1] == ":" && b[i + 1..i + 2] == "\n";
    forall j | 0 <= j < i
      ensures !OccursAt(b, ":", j) && !OccursAt(b, "\n", j)
    {
      assert b[j..j + 1] == [v[j]];
    }
    FirstAt(b, ":", i);
    FirstAt(b, "\n", i + 1);
    forall kind: StepType | kind.Value() == b[..i]
      ensures kind == step.kind
    {
      ValueInjective(kind, step.kind);
    }
  }

  /** Distinct kinds have distinct tags. */
  lemma ValueInjective(a: StepType, b: StepType)
    requires a.Value() == b.Value()
    ensures a == b
  {
    assert a.Value()[0] == b.Value()[0];
    if a.Value()[0] == 'O' || a.Value()[0] == 'F' {
    } else {
      assert |a.Value()| == |b.Value()|;
    }
  }

  function Blocks(history: seq<Step>): (bs: seq<string>)
    ensures |bs| == |history|
  {
    seq(|history|, k requires 0 <= k < |history| => Block(history[k]))
  }

  /** The whole history as text: the blocks in insertion order, one newline
      between consecutive blocks. */
  function Render(history: seq<Step>): (r: string)
  {
    Join(Blocks(history), "\n")
  }

  /** Rendering is empty exactly when there is nothing in the history. */
  lemma {:induction false} RenderEmpty(history: seq<Step>)
    ensures Render(history) == "" <==> history == []
  {
    if history != [] {
      JoinFirst(Blocks(history), "\n");
      assert Blocks(history)[0] == Block(history[0]);
    }
  }

  /** Rendering a history split in two renders each part and joins them with
      one newline: the text is built in insertion order. */
  lemma RenderConcat(a: seq<Step>, b: seq<Step>)
    requires a != [] && b != []
    ensures Render(a + b) == Render(a) + "\n" + Render(b)
  {
    assert Blocks(a + b) == Blocks(a) + Blocks(b);
    JoinConcat(Blocks(a), Blocks(b), "\n");
  }

  /** Appending one step adds its block at the end of the rendering,
      after a newline unless the history was empty. */
  lemma RenderAppend(history: seq<Step>, step: Step)
    ensures Render(history + [step]) ==
            if history == [] then Block(step) else Render(history) + "\n" + Block(step)
  {
    assert Render([step]) == Block(step);
    if history == [] {
      assert history + [step] == [step];
    } else {
      RenderConcat(history, [step]);
    }
  }

  /** Appending steps only ever extends the rendering: the earlier text is
      a proper prefix of the later one. */
  lemma RenderGrows(history: seq<Step>, more: seq<Step>)
    requires more != []
    ensures |Render(history + more)| > |Render(history)|
    ensures Render(history + more)[..|Render(history)|] == Render(history)
  {
    RenderEmpty(more);
    if history == [] {
      assert history + more == more;
    } else {
      RenderConcat(history, more);
    }
  }

  /** Three steps render as their three blocks, separated by newlines. */
  lemma RenderThree(s0: Step, s1: Step, s2: Step)
    ensures Render([s0, s1, s2]) == Block(s0) + "\n" + Block(s1) + "\n" + Block(s2)
  {
    RenderAppend([], s0);
    assert [] + [s0] == [s0];
    RenderAppend([s0], s1);
    assert [s0] + [s1] == [s0, s1];
    RenderAppend([s0, s1], s2);
    assert [s0, s1] + [s2] == [s0, s1, s2];
  }

  /** A thought, an action and an observation render as three tagged blocks,
      in that order, separated by newlines. */
  lemma RenderExample(a: string, b: string, c: string)
    ensures Render([Step(Thought, a), Step(Action, b), Step(Observation, c)])
            == "THOUGHT:\n" + a + "\n" + "\n" + "ACTION:\n" + b + "\n" + "\n" + "OBSERVATION:\n" + c + "\n"
  {
    RenderThree(Step(Thought, a), Step(Action, b), Step(Observation, c));
    assert Block(Step(Thought, a)) == "THOUGHT:\n" + a + "\n";
    assert Block(Step(Action, b)) == "ACTION:\n" + b + "\n";
    assert Block(Step(Observation, c)) == "OBSERVATION:\n" + c + "\n";
  }
}
