/** The splitting half of the reasoning phase: a model completion becomes a
    thought and, when the `ACTION:` marker is present, a code fragment. */
module Splitter {
  import opened Text

  const ActionMarker := "ACTION:"

  /** What one completion says: the reasoning text and the code to run, if
      any. */
  datatype Reasoning = Reasoning(thought: string, code: Option<string>)

  /** Without the marker the completion is the thought, untouched, and there
      is no code. With it, the thought is the stripped text before the first
      marker and the code is the stripped second piece of `split("ACTION:")`:
      the text up to the second marker, or to the end. */
  function SplitResponse(response: string): (r: Reasoning)
    ensures !Contains(response, ActionMarker) ==> r == Reasoning(response, None)
    ensures Contains(response, ActionMarker) ==>
              r.code.Some? && !Contains(r.thought, ActionMarker) && !Contains(r.code.value, ActionMarker)
    ensures r.code.Some? ==> Stripped(r.thought) && Stripped(r.code.value)
  {
    if Contains(response, ActionMarker) then
      var parts := Split(response, ActionMarker);
      SplitPieces(response, ActionMarker);
      StripKeepsAbsence(parts[0], ActionMarker);
      StripKeepsAbsence(parts[1], ActionMarker);
      Reasoning(Strip(parts[0]), Some(Strip(parts[1])))
    else
      Reasoning(response, None)
  }

  /** Two leftmost occurrences are the same occurrence. */
  lemma FirstUnique(s: string, pat: string, i: int, j: int)
    requires IsFirst(s, pat, i) && IsFirst(s, pat, j)
    ensures i == j
  {
  }

  /** The pieces of a marked completion, located by position: with the first
      marker at `i`, the thought is the stripped text before `i`, and the code
      is the stripped text after that marker, cut at the next marker if there
      is one. */
  lemma {:induction false} SplitResponseMarked(response: string, i: nat)
    requires IsFirst(response, ActionMarker, i)
    ensures SplitResponse(response).thought == Strip(response[..i])
    ensures var rest := response[i + |ActionMarker|..];
            !Contains(rest, ActionMarker) ==> SplitResponse(response).code == Some(Strip(rest))
    ensures var rest := response[i + |ActionMarker|..];
            forall j :: IsFirst(rest, ActionMarker, j) ==>
              SplitResponse(response).code == Some(Strip(rest[..j]))
  {
    var first := IndexOf(response, ActionMarker);
    FirstUnique(response, ActionMarker, first.value, i);
    var rest := response[i + |ActionMarker|..];
    SplitStep(response, ActionMarker, i);
    var parts := Split(response, ActionMarker);
    assert parts[1] == Split(rest, ActionMarker)[0];
    match IndexOf(rest, ActionMarker)
    case None =>
      assert Split(rest, ActionMarker) == [rest];
    case Some(j) =>
      SplitStep(rest, ActionMarker, j);
      forall j' | IsFirst(rest, ActionMarker, j')
        ensures SplitResponse(response).code == Some(Strip(rest[..j']))
      {
        FirstUnique(rest, ActionMarker, j, j');
      }
  }

  /** The marker cannot straddle a newline: an occurrence in `a + "\n" + b`
      that starts inside `a` would lie wholly inside `a`. */
  lemma NoMarkerFromLeft(a: string, b: string, j: int)
    requires !Contains(a, ActionMarker) && 0 <= j <= |a|
    ensures !OccursAt(a + "\n" + b, ActionMarker, j)
  {
    var w := a + "\n" + b;
    var n := |ActionMarker|;
    if j + n <= |w| {
      if j + n <= |a| {
        assert w[j..j + n] == a[j..j + n];
        assert !OccursAt(a, ActionMarker, j);
      } else {
        assert w[j..j + n][|a| - j] == '\n' != ActionMarker[|a| - j];
      }
    }
  }

  /** Joining two marker-free texts with a newline gives a marker-free text. */
  lemma NoMarkerAcrossNewline(a: string, b: string)
    requires !Contains(a, ActionMarker) && !Contains(b, ActionMarker)
    ensures !Contains(a + "\n" + b, ActionMarker)
  {
    var w := a + "\n" + b;
    var n := |ActionMarker|;
    forall j | 0 <= j ensures !OccursAt(w, ActionMarker, j) {
      if j <= |a| {
        NoMarkerFromLeft(a, b, j);
      } else if j + n <= |w| {
        var k := j - |a| - 1;
        assert w[j..j + n] == b[k..k + n];
        assert !OccursAt(b, ActionMarker, k);
      }
    }
  }

  /** Where the pieces of a thought, the marker on a line of its own and a
      code fragment lie, when neither holds the marker. */
  lemma ExampleLayout(thought: string, code: string)
    requires !Contains(thought, ActionMarker) && !Contains(code, ActionMarker)
    ensures var response := thought + "\n" + ActionMarker + "\n" + code;
            var i := |thought| + 1;
            && IsFirst(response, ActionMarker, i)
            && response[..i] == thought + "\n"
            && response[i + |ActionMarker|..] == "\n" + code
            && !Contains("\n" + code, ActionMarker)
  {
    var tail := ActionMarker + "\n" + code;
    var response := thought + "\n" + tail;
    assert response == thought + "\n" + ActionMarker + "\n" + code;
    var i := |thought| + 1;
    assert response[i..i + |ActionMarker|] == ActionMarker;
    forall j | 0 <= j < i
      ensures !OccursAt(response, ActionMarker, j)
    {
      NoMarkerFromLeft(thought, tail, j);
    }
    assert response[i + |ActionMarker|..] == "\n" + code;
    assert "" + "\n" + code == "\n" + code;
    NoMarkerAcrossNewline("", code);
  }

  /** A thought, the marker on a line of its own, and a code fragment split
      back into that thought and that fragment, provided neither holds the
      marker or surrounding whitespace. */
  lemma SplitResponseExample(thought: string, code: string)
    requires Stripped(thought) && !Contains(thought, ActionMarker)
    requires Stripped(code) && !Contains(code, ActionMarker)
    ensures SplitResponse(thought + "\n" + ActionMarker + "\n" + code)
            == Reasoning(thought, Some(code))
  {
    var response := thought + "\n" + ActionMarker + "\n" + code;
    ExampleLayout(thought, code);
    StripNewline(thought);
    StripNewline(code);
    SplitResponseMarked(response, |thought| + 1);
  }
}
