/** Strings as Python's `str` methods see them: substring search (`in`),
    `str.split(sep)`, `sep.join(parts)` and `str.strip()`. */
module Text {

  datatype Option<+T> = None | Some(value: T)

  /** The characters `str.strip()` with no argument removes: the ASCII
      whitespace controls, the separators 0x1C-0x1F, space, NEL, NBSP and the
      Unicode space separators, line and paragraph separators. */
  predicate IsSpace(c: char) {
    var n := c as int;
    (0x09 <= n <= 0x0D) || (0x1C <= n <= 0x20) || n == 0x85 || n == 0xA0 ||
    n == 0x1680 || (0x2000 <= n <= 0x200A) || n == 0x2028 || n == 0x2029 ||
    n == 0x202F || n == 0x205F || n == 0x3000
  }

  predicate AllSpace(s: string) {
    forall k :: 0 <= k < |s| ==> IsSpace(s[k])
  }

  /** `pat` occurs in `s` starting at index `i`. */
  ghost predicate OccursAt(s: string, pat: string, i: int) {
    0 <= i && i + |pat| <= |s| && s[i..i + |pat|] == pat
  }

  /** `i` is the leftmost occurrence of `pat` in `s`. */
  ghost predicate IsFirst(s: string, pat: string, i: int) {
    OccursAt(s, pat, i) && forall j :: 0 <= j < i ==> !OccursAt(s, pat, j)
  }

  /** Leftmost occurrence of `pat` in `s` at or after `k`. */
  function IndexFrom(s: string, pat: string, k: nat): (r: Option<nat>)
    ensures r.Some? ==> k <= r.value && OccursAt(s, pat, r.value)
    ensures r.Some? ==> forall j :: k <= j < r.value ==> !OccursAt(s, pat, j)
    ensures r.None? ==> forall j :: k <= j ==> !OccursAt(s, pat, j)
    decreases |s| - k
  {
    if k + |pat| > |s| then None
    else if s[k..k + |pat|] == pat then Some(k)
    else IndexFrom(s, pat, k + 1)
  }

  /** Leftmost occurrence of `pat` in `s` (Python's `s.find(pat)`, with
      `None` for -1). */
  function IndexOf(s: string, pat: string): (r: Option<nat>)
    ensures r.Some? ==> IsFirst(s, pat, r.value)
    ensures r.None? ==> forall j :: !OccursAt(s, pat, j)
  {
    IndexFrom(s, pat, 0)
  }

  /** An occurrence with none before it is what `IndexOf` finds. */
  lemma FirstAt(s: string, pat: string, i: int)
    requires OccursAt(s, pat, i) && forall j :: 0 <= j < i ==> !OccursAt(s, pat, j)
    ensures IndexOf(s, pat) == Some(i)
  {
  }

  /** Python's `pat in s`. */
  predicate Contains(s: string, pat: string)
    ensures Contains(s, pat) <==> exists i :: OccursAt(s, pat, i)
  {
    IndexOf(s, pat).Some?
  }

  /** An occurrence inside an occurrence is an occurrence in the whole. */
  lemma InfixOccurs(s: string, t: string, i: int, pat: string, j: int)
    requires OccursAt(s, t, i) && OccursAt(t, pat, j)
    ensures OccursAt(s, pat, i + j)
  {
    assert s[i..i + |t|] == t;
    forall k | 0 <= k < |pat|
      ensures s[i + j..i + j + |pat|][k] == pat[k]
    {
      assert t[j..j + |pat|][k] == pat[k];
      assert s[i..i + |t|][j + k] == t[j + k];
    }
  }

  /** A string that occurs inside `s` cannot hold a pattern that `s` does not. */
  lemma InfixKeepsAbsence(s: string, t: string, i: int, pat: string)
    requires OccursAt(s, t, i) && !Contains(s, pat)
    ensures !Contains(t, pat)
  {
    forall j | OccursAt(t, pat, j) ensures OccursAt(s, pat, i + j) {
      InfixOccurs(s, t, i, pat, j);
    }
  }

  /** Python's `s.split(sep)`: the pieces between successive non-overlapping
      occurrences of `sep`, scanning from the left. */
  function Split(s: string, sep: string): (parts: seq<string>)
    requires sep != []
    ensures |parts| >= 1
    decreases |s|
  {
    match IndexOf(s, sep)
    case None => [s]
    case Some(i) => [s[..i]] + Split(s[i + |sep|..], sep)
  }

  /** `split` gives a single piece exactly when the separator does not
      occur, and no piece contains the separator. */
  lemma {:induction false} SplitPieces(s: string, sep: string)
    requires sep != []
    ensures |Split(s, sep)| == 1 <==> !Contains(s, sep)
    ensures forall k :: 0 <= k < |Split(s, sep)| ==> !Contains(Split(s, sep)[k], sep)
    decreases |s|
  {
    match IndexOf(s, sep)
    case None =>
      assert Split(s, sep) == [s];
    case Some(i) =>
      var rest := s[i + |sep|..];
      SplitStep(s, sep, i);
      InfixKeepsFirst(s, sep, i);
      SplitPieces(rest, sep);
      var parts := Split(s, sep);
      forall k | 0 <= k < |parts|
        ensures !Contains(parts[k], sep)
      {
        if k > 0 {
          assert parts[k] == Split(rest, sep)[k - 1];
        }
      }
  }

  /** The text before the first occurrence of a pattern does not contain it. */
  lemma {:induction false} InfixKeepsFirst(s: string, pat: string, i: int)
    requires pat != [] && IsFirst(s, pat, i)
    ensures !Contains(s[..i], pat)
  {
    if Contains(s[..i], pat) {
      var j :| OccursAt(s[..i], pat, j);
      assert s[..i][j..j + |pat|] == s[j..j + |pat|];
      assert OccursAt(s, pat, j) && j < i;
      assert false;
    }
  }

  /** Python's `sep.join(parts)`. */
  function Join(parts: seq<string>, sep: string): (r: string)
    ensures parts == [] ==> r == []
    decreases |parts|
  {
    if |parts| == 0 then ""
    else if |parts| == 1 then parts[0]
    else parts[0] + sep + Join(parts[1..], sep)
  }

  /** A join of a non-empty list starts with its first element. */
  lemma JoinFirst(parts: seq<string>, sep: string)
    requires parts != []
    ensures |Join(parts, sep)| >= |parts[0]| && Join(parts, sep)[..|parts[0]|] == parts[0]
  {
  }

  /** One step of `Split`: the piece before the first separator, then the
      split of the rest. */
  lemma {:induction false} SplitStep(s: string, sep: string, i: nat)
    requires sep != [] && IndexOf(s, sep) == Some(i)
    ensures Split(s, sep) == [s[..i]] + Split(s[i + |sep|..], sep)
  {
    assert OccursAt(s, sep, i);
  }

  /** A string is the text before an occurrence, the occurrence, and the
      text after it. */
  lemma Recompose(s: string, pat: string, i: int)
    requires OccursAt(s, pat, i)
    ensures s == s[..i] + pat + s[i + |pat|..]
  {
    assert s == s[..i] + s[i..i + |pat|] + s[i + |pat|..];
  }

  /** Splitting on a separator and joining with it gives back the string. */
  lemma {:induction false} JoinSplit(s: string, sep: string)
    requires sep != []
    ensures Join(Split(s, sep), sep) == s
    decreases |s|
  {
    var first := IndexOf(s, sep);
    if first.Some? {
      var i := first.value;
      var rest := s[i + |sep|..];
      var tail := Split(rest, sep);
      JoinSplit(rest, sep);
      SplitStep(s, sep, i);
      assert ([s[..i]] + tail)[1..] == tail;
      Recompose(s, sep, i);
    } else {
      assert Split(s, sep) == [s];
    }
  }

  /** Joining two non-empty lists puts one separator between their joins. */
  lemma {:induction false} JoinConcat(p: seq<string>, q: seq<string>, sep: string)
    requires p != [] && q != []
    ensures Join(p + q, sep) == Join(p, sep) + sep + Join(q, sep)
    decreases |p|
  {
    if |p| == 1 {
      assert (p + q)[1..] == q;
    } else {
      JoinConcat(p[1..], q, sep);
      assert (p + q)[1..] == p[1..] + q;
    }
  }

  /** Number of whitespace characters at the start of `s`. */
  function LeadingSpaces(s: string): (n: nat)
    ensures n <= |s| && AllSpace(s[..n])
    ensures n < |s| ==> !IsSpace(s[n])
    decreases |s|
  {
    if s != [] && IsSpace(s[0]) then 1 + LeadingSpaces(s[1..]) else 0
  }

  /** Number of whitespace characters at the end of `s`. */
  function TrailingSpaces(s: string): (n: nat)
    ensures n <= |s| && AllSpace(s[|s| - n..])
    ensures n < |s| ==> !IsSpace(s[|s| - n - 1])
    decreases |s|
  {
    if s != [] && IsSpace(s[|s| - 1]) then
      var u := s[..|s| - 1];
      var m := TrailingSpaces(u);
      assert s[|s| - (m + 1)..] == u[|u| - m..] + [s[|s| - 1]];
      m + 1
    else 0
  }

  /** `s` has no whitespace at either end. */
  predicate Stripped(s: string) {
    s == [] || (!IsSpace(s[0]) && !IsSpace(s[|s| - 1]))
  }

  /** Python's `s.strip()`: `s` without its leading and trailing whitespace. */
  function Strip(s: string): (r: string)
    ensures exists i :: OccursAt(s, r, i) && AllSpace(s[..i]) && AllSpace(s[i + |r|..])
    ensures Stripped(r)
  {
    var i := LeadingSpaces(s);
    var t := s[i..];
    var r := t[..|t| - TrailingSpaces(t)];
    assert s[i..i + |r|] == r;
    assert s[i + |r|..] == t[|t| - TrailingSpaces(t)..];
    assert OccursAt(s, r, i);
    r
  }

  lemma {:induction false} LeadingSpacesAfter(p: string, t: string)
    requires AllSpace(p)
    ensures LeadingSpaces(p + t) == |p| + LeadingSpaces(t)
    decreases |p|
  {
    if p != [] {
      assert (p + t)[1..] == p[1..] + t;
      LeadingSpacesAfter(p[1..], t);
    } else {
      assert p + t == t;
    }
  }

  lemma {:induction false} TrailingSpacesBefore(t: string, q: string)
    requires AllSpace(q)
    ensures TrailingSpaces(t + q) == |q| + TrailingSpaces(t)
    decreases |q|
  {
    if q != [] {
      assert (t + q)[..|t + q| - 1] == t + q[..|q| - 1];
      TrailingSpacesBefore(t, q[..|q| - 1]);
    } else {
      assert t + q == t;
    }
  }

  /** Stripping removes exactly the whitespace padding around a string that
      has none of its own at its ends. */
  lemma StripPadded(p: string, s: string, q: string)
    requires AllSpace(p) && AllSpace(q) && Stripped(s)
    ensures Strip(p + s + q) == s
  {
    var whole := p + s + q;
    assert whole == p + (s + q);
    LeadingSpacesAfter(p, s + q);
    if s == [] {
      assert AllSpace(s + q) by { assert s + q == q; }
    } else {
      assert (s + q)[0] == s[0];
      assert whole[|p|..] == s + q;
      TrailingSpacesBefore(s, q);
      assert (s + q)[..|s|] == s;
    }
  }

  /** A newline on either side of a stripped string is stripped away. */
  lemma StripNewline(s: string)
    requires Stripped(s)
    ensures Strip(s + "\n") == s && Strip("\n" + s) == s
  {
    assert AllSpace("\n") && AllSpace("");
    assert "" + s + "\n" == s + "\n";
    StripPadded("", s, "\n");
    assert "\n" + s + "" == "\n" + s;
    StripPadded("\n", s, "");
  }

  /** Stripping a string that does not contain a pattern gives one that does
      not either. */
  lemma StripKeepsAbsence(s: string, pat: string)
    requires !Contains(s, pat)
    ensures !Contains(Strip(s), pat)
  {
    var r := Strip(s);
    var i :| OccursAt(s, r, i) && AllSpace(s[..i]) && AllSpace(s[i + |r|..]);
    InfixKeepsAbsence(s, r, i, pat);
  }

  /** Stripping twice is stripping once. */
  lemma StripIdempotent(s: string)
    ensures Strip(Strip(s)) == Strip(s)
  {
    var r := Strip(s);
    assert LeadingSpaces(r) == 0;
    assert r[0..] == r;
    assert TrailingSpaces(r) == 0;
  }
}
