/** `get_first_sentence`: split the first sentence off a streamed text buffer. */
module Sentences {
  import opened Wrappers

  /** `end_chars`: . ? ! : and the full-width 。 ？ ！ (U+3002, U+FF1F, U+FF01). */
  const EndChars: seq<char> := ['.', '?', '!', ':', '\U{3002}', '\U{FF1F}', '\U{FF01}']

  /** The characters each end character is paired with in `end_markers`. */
  const Followers: seq<char> := [' ', '\n', '"', '\'']

  predicate IsEndChar(c: char)
    ensures IsEndChar(c) <==> c in EndChars
  {
    c == '.' || c == '?' || c == '!' || c == ':'
    || c == '\U{3002}' || c == '\U{FF1F}' || c == '\U{FF01}'
  }

  predicate IsFollower(c: char)
    ensures IsFollower(c) <==> c in Followers
  {
    c == ' ' || c == '\n' || c == '"' || c == '\''
  }

  /** Membership in `end_markers`: an end character followed by a follower.
      A marker never starts with a newline or a space. */
  predicate IsEndMarker(w: string)
    ensures IsEndMarker(w) ==> |w| == 2 && w[0] != '\n' && w[0] != ' '
  {
    |w| == 2 && IsEndChar(w[0]) && IsFollower(w[1])
  }

  /** The four markers of one end character are its pairings with the followers. */
  lemma MarkersOf(c: char)
    ensures forall w :: w in [[c, ' '], [c, '\n'], [c, '"'], [c, '\'']]
                        <==> |w| == 2 && w[0] == c && IsFollower(w[1])
  {
    forall w | |w| == 2 && w[0] == c && IsFollower(w[1])
      ensures w in [[c, ' '], [c, '\n'], [c, '"'], [c, '\'']]
    {
      assert w == [w[0], w[1]];
    }
  }

  /** The list `end_markers`, built as the source builds it: for each end
      character in order, its pairing with a space, a newline, `"` and `'`. */
  method EndMarkers() returns (markers: seq<string>)
    ensures |markers| == 4 * |EndChars|
    ensures forall w :: w in markers <==> IsEndMarker(w)
  {
    markers := [];
    for k := 0 to |EndChars|
      invariant |markers| == 4 * k
      invariant forall w :: w in markers <==> |w| == 2 && w[0] in EndChars[..k] && IsFollower(w[1])
    {
      var c := EndChars[k];
      assert EndChars[..k + 1] == EndChars[..k] + [c];
      MarkersOf(c);
      markers := markers + [[c, ' '], [c, '\n'], [c, '"'], [c, '\'']];
    }
    assert EndChars[..|EndChars|] == EndChars;
  }

  /** The test of the scan at index `i`: a newline, or a marker starting there.
      At the last index the slice `text[i:i+2]` is one character long and never a marker. */
  predicate Qualifies(text: string, i: nat)
    requires i < |text|
    ensures Qualifies(text, i) ==> text[i] == '\n' || (IsEndChar(text[i]) && i + 1 < |text| && IsFollower(text[i + 1]))
  {
    text[i] == '\n' || (|text| >= 2 && i + 2 <= |text| && IsEndMarker(text[i..i + 2]))
  }

  /** The first qualifying index at or after `from`, if any. */
  function FirstIndexFrom(text: string, from: nat): (r: Option<nat>)
    requires from <= |text|
    ensures r.Some? ==> from <= r.value < |text| && Qualifies(text, r.value)
    ensures r.Some? ==> forall j :: from <= j < r.value ==> !Qualifies(text, j)
    ensures r.None? ==> forall j :: from <= j < |text| ==> !Qualifies(text, j)
    decreases |text| - from
  {
    if from == |text| then None
    else if Qualifies(text, from) then Some(from)
    else FirstIndexFrom(text, from + 1)
  }

  /** `(text[:i+1], text[i+1:])` for the first qualifying index i, else `('', text)`. */
  function SplitFirst(text: string): (r: (string, string))
    ensures r.0 + r.1 == text
    ensures r.0 == "" <==> forall i :: 0 <= i < |text| ==> !Qualifies(text, i)
    ensures r.0 != "" ==> Qualifies(text, |r.0| - 1)
    ensures r.0 != "" ==> forall j :: 0 <= j < |r.0| - 1 ==> !Qualifies(text, j)
  {
    match FirstIndexFrom(text, 0)
    case Some(i) => (text[..i + 1], text[i + 1..])
    case None => ("", text)
  }

  /** The loop of `get_first_sentence`, with its `break` at the first match. */
  method GetFirstSentence(text: string) returns (firstSentence: string, remainingText: string)
    ensures (firstSentence, remainingText) == SplitFirst(text)
  {
    var endMarkers := EndMarkers();
    firstSentence := "";
    remainingText := text;
    for i := 0 to |text|
      invariant forall j :: 0 <= j < i ==> !Qualifies(text, j)
      invariant firstSentence == "" && remainingText == text
    {
      if text[i] == '\n' || (|text| >= 2 && i + 2 <= |text| && text[i..i + 2] in endMarkers) {
        firstSentence := text[..i + 1];
        remainingText := text[i + 1..];
        assert Qualifies(text, i);
        var found := FirstIndexFrom(text, 0);
        assert found.Some? && found.value == i;
        return;
      }
    }
    assert FirstIndexFrom(text, 0) == None;
  }

  /** A non-empty sentence ends in a newline, or in an end character whose
      follower stays at the head of the remainder. */
  lemma SentenceEnding(text: string)
    requires SplitFirst(text).0 != ""
    ensures var (first, rest) := SplitFirst(text);
            first[|first| - 1] == '\n'
            || (IsEndChar(first[|first| - 1]) && rest != [] && IsFollower(rest[0]))
  {
    var (first, rest) := SplitFirst(text);
    var i := |first| - 1;
    assert Qualifies(text, i);
    assert text[i] == first[i];
    if text[i] != '\n' {
      assert text[i + 1] == rest[0];
    }
  }

  /** Appending text does not change the test at an index whose two-character
      window already lies inside the buffer. */
  lemma QualifiesExtend(text: string, more: string, j: nat)
    requires j + 2 <= |text|
    ensures Qualifies(text + more, j) == Qualifies(text, j)
  {
    var t := text + more;
    assert t[j] == text[j];
    assert t[j..j + 2] == text[j..j + 2];
  }

  /** Once a sentence is found, more streamed text leaves it unchanged and
      only extends the remainder: splitting is safe to repeat as the buffer grows. */
  lemma {:induction false} SplitFirstStable(text: string, more: string)
    requires SplitFirst(text).0 != ""
    ensures SplitFirst(text + more) == (SplitFirst(text).0, SplitFirst(text).1 + more)
  {
    var (first, rest) := SplitFirst(text);
    var i := |first| - 1;
    var t := text + more;
    assert Qualifies(text, i);
    if i + 2 <= |text| {
      QualifiesExtend(text, more, i);
    } else {
      assert i + 1 == |text|;
      assert text[i] == '\n';
      assert t[i] == text[i];
    }
    assert Qualifies(t, i);
    forall j | 0 <= j < i ensures !Qualifies(t, j) {
      QualifiesExtend(text, more, j);
    }
    assert FirstIndexFrom(t, 0) == Some(i);
    assert t[..i + 1] == first;
    assert t[i + 1..] == rest + more;
  }
}
