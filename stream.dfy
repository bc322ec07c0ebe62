/** The chunk-consumption loop of `converse`: streamed fragments are
    collected into the reply and cut into sentences for the speaker. */
module Stream {
  import opened Wrappers
  import opened Strings
  import opened Sentences

  /** A call the loop makes on its `Speaker`. */
  datatype SpeakerCall = Speak(text: string) | Stop

  /** The fragments that carried content, in order; `None` stands for a
      chunk whose `delta.content` raised `AttributeError`. */
  function Delivered(chunks: seq<Option<string>>): (r: seq<string>)
    ensures |r| <= |chunks|
  {
    if chunks == [] then []
    else Delivered(chunks[..|chunks| - 1])
         + (if chunks[|chunks| - 1].Some? then [chunks[|chunks| - 1].value] else [])
  }

  /** One chunk of the loop: a chunk without content changes nothing; a
      fragment is appended to the buffer, and the first sentence, if there
      is one, is split off and spoken. */
  function FeedStep(state: (seq<string>, string), c: Option<string>): (seq<string>, string) {
    match c
    case None => state
    case Some(t) =>
      var (first, rest) := SplitFirst(state.1 + t);
      (if first != "" then state.0 + [first] else state.0, rest)
  }

  /** The sentences handed to `speak` while consuming `chunks`, and the
      `read_buffer` left afterwards. */
  function Feed(chunks: seq<Option<string>>): (r: (seq<string>, string))
    ensures |r.0| <= |Delivered(chunks)|
    ensures forall k :: 0 <= k < |r.0| ==> r.0[k] != ""
  {
    if chunks == [] then ([], "")
    else FeedStep(Feed(chunks[..|chunks| - 1]), chunks[|chunks| - 1])
  }

  function AsCalls(speaks: seq<string>): (r: seq<SpeakerCall>)
    ensures |r| == |speaks|
    ensures forall k :: 0 <= k < |r| ==> r[k] == Speak(speaks[k])
  {
    if speaks == [] then [] else AsCalls(speaks[..|speaks| - 1]) + [Speak(speaks[|speaks| - 1])]
  }

  /** The text of all `speak` calls of a log, joined. */
  function SpokenText(calls: seq<SpeakerCall>): string {
    if calls == [] then ""
    else SpokenText(calls[..|calls| - 1])
         + (match calls[|calls| - 1] case Speak(t) => t case Stop => "")
  }

  lemma {:induction false} SpokenAsCalls(speaks: seq<string>)
    ensures SpokenText(AsCalls(speaks)) == Concat(speaks)
    decreases |speaks|
  {
    if speaks != [] {
      var init := speaks[..|speaks| - 1];
      SpokenAsCalls(init);
      assert AsCalls(speaks)[..|speaks| - 1] == AsCalls(init);
    }
  }

  lemma SpokenTextAppend(calls: seq<SpeakerCall>, c: SpeakerCall)
    ensures SpokenText(calls + [c]) == SpokenText(calls) + (if c.Speak? then c.text else "")
  {
    assert (calls + [c])[..|calls|] == calls;
  }

  /** `Feed` and `Delivered` after one more chunk. */
  lemma FeedSnoc(chunks: seq<Option<string>>, c: Option<string>)
    ensures Feed(chunks + [c]) == FeedStep(Feed(chunks), c)
    ensures Delivered(chunks + [c]) == Delivered(chunks) + (if c.Some? then [c.value] else [])
  {
    assert (chunks + [c])[..|chunks|] == chunks;
  }

  /** One fragment more keeps the spoken text and the buffer equal to all
      that was delivered. */
  lemma FeedConcatStep(speaks: seq<string>, buffer: string, delivered: seq<string>, t: string)
    requires Concat(speaks) + buffer == Concat(delivered)
    ensures var (first, rest) := SplitFirst(buffer + t);
            Concat(if first != "" then speaks + [first] else speaks) + rest == Concat(delivered + [t])
  {
    var (first, rest) := SplitFirst(buffer + t);
    ConcatSnoc(delivered, t);
    ConcatSnoc(speaks, first);
    assert first + rest == buffer + t;
    AppendAssoc(Concat(speaks), buffer, t);
    AppendAssoc(Concat(speaks), first, rest);
  }

  /** Nothing is lost or repeated: the spoken sentences followed by the
      leftover buffer are exactly the delivered fragments, joined. */
  lemma {:induction false} FeedConcat(chunks: seq<Option<string>>)
    ensures Concat(Feed(chunks).0) + Feed(chunks).1 == Concat(Delivered(chunks))
    decreases |chunks|
  {
    if chunks != [] {
      var init := chunks[..|chunks| - 1];
      var last := chunks[|chunks| - 1];
      FeedConcat(init);
      if last.Some? {
        FeedConcatStep(Feed(init).0, Feed(init).1, Delivered(init), last.value);
      } else {
        assert Feed(chunks) == Feed(init);
        assert Delivered(chunks) == Delivered(init) + [];
        assert Delivered(init) + [] == Delivered(init);
      }
    }
  }

  /** A chunk without content changes neither the reply nor what is spoken. */
  lemma {:induction false} FeedSkipsMissing(before: seq<Option<string>>, after: seq<Option<string>>)
    ensures Feed(before + [None] + after) == Feed(before + after)
    ensures Delivered(before + [None] + after) == Delivered(before + after)
    decreases |after|
  {
    if after == [] {
      assert before + [None] + after == before + [None];
      assert before + after == before;
      FeedSnoc(before, None);
    } else {
      var init := after[..|after| - 1];
      var last := after[|after| - 1];
      FeedSkipsMissing(before, init);
      assert before + [None] + after == (before + [None] + init) + [last];
      assert before + after == (before + init) + [last];
      FeedSnoc(before + [None] + init, last);
      FeedSnoc(before + init, last);
    }
  }

  /** The log of one run: the sentences, a `stop` if interrupted, the flush. */
  lemma FlushSpoken(speaks: seq<string>, buffer: string, interrupted: bool)
    ensures SpokenText(AsCalls(speaks) + (if interrupted then [Stop] else []) + [Speak(buffer)])
            == Concat(speaks) + buffer
  {
    var head := AsCalls(speaks) + (if interrupted then [Stop] else []);
    SpokenTextAppend(head, Speak(buffer));
    if interrupted {
      SpokenTextAppend(AsCalls(speaks), Stop);
    } else {
      assert head == AsCalls(speaks);
    }
    SpokenAsCalls(speaks);
  }

  /** The log of a run over `consumed` speaks exactly the delivered text. */
  lemma RunSpoken(consumed: seq<Option<string>>, interrupted: bool)
    ensures SpokenText(AsCalls(Feed(consumed).0) + (if interrupted then [Stop] else [])
                       + [Speak(Feed(consumed).1)])
            == Concat(Delivered(consumed))
  {
    FeedConcat(consumed);
    FlushSpoken(Feed(consumed).0, Feed(consumed).1, interrupted);
  }

  /** The chunks consumed: all of them, or those before a KeyboardInterrupt. */
  function Consumed(chunks: seq<Option<string>>, interrupt: Option<nat>): seq<Option<string>>
    requires interrupt.Some? ==> interrupt.value <= |chunks|
  {
    if interrupt.Some? then chunks[..interrupt.value] else chunks
  }

  /** The body of the stream loop for one chunk: a chunk without content is
      skipped; a fragment is added to the reply and to the buffer, and the
      first sentence of the buffer, if any, is spoken. The state before is the
      state after the chunks `seen`; the state after includes `chunk`. */
  method ConsumeChunk(ghost seen: seq<Option<string>>, chunk: Option<string>,
                      parts: seq<string>, readBuffer: string, calls: seq<SpeakerCall>)
    returns (parts': seq<string>, readBuffer': string, calls': seq<SpeakerCall>)
    requires parts == Delivered(seen)
    requires calls == AsCalls(Feed(seen).0) && readBuffer == Feed(seen).1
    ensures parts' == Delivered(seen + [chunk])
    ensures calls' == AsCalls(Feed(seen + [chunk]).0) && readBuffer' == Feed(seen + [chunk]).1
  {
    FeedSnoc(seen, chunk);
    parts', readBuffer', calls' := parts, readBuffer, calls;
    if chunk.None? {
      return;
    }
    var c := chunk.value;
    parts' := parts' + [c];
    readBuffer' := readBuffer' + c;
    var firstSentence;
    firstSentence, readBuffer' := GetFirstSentence(readBuffer');
    if firstSentence != "" {
      calls' := calls' + [Speak(firstSentence)];
    }
  }

  /** The stream loop, the interrupt handler and the final flush of the
      leftover buffer. `interrupt == Some(n)` means a KeyboardInterrupt
      arrived after the first `n` chunks. */
  method ConsumeStream(chunks: seq<Option<string>>, interrupt: Option<nat>)
    returns (completeResponse: string, calls: seq<SpeakerCall>)
    requires interrupt.Some? ==> interrupt.value <= |chunks|
    ensures completeResponse == Concat(Delivered(Consumed(chunks, interrupt)))
    ensures calls == AsCalls(Feed(Consumed(chunks, interrupt)).0)
                     + (if interrupt.Some? then [Stop] else [])
                     + [Speak(Feed(Consumed(chunks, interrupt)).1)]
    ensures SpokenText(calls) == completeResponse
    ensures |calls| <= |Delivered(Consumed(chunks, interrupt))| + 2
  {
    var consumed := Consumed(chunks, interrupt);
    var parts: seq<string> := [];
    var readBuffer := "";
    calls := [];
    for i := 0 to |consumed|
      invariant parts == Delivered(consumed[..i])
      invariant calls == AsCalls(Feed(consumed[..i]).0)
      invariant readBuffer == Feed(consumed[..i]).1
    {
      assert consumed[..i + 1] == consumed[..i] + [consumed[i]];
      parts, readBuffer, calls := ConsumeChunk(consumed[..i], consumed[i], parts, readBuffer, calls);
    }
    assert consumed[..|consumed|] == consumed;
    RunSpoken(consumed, interrupt.Some?);
    if interrupt.Some? {
      calls := calls + [Stop];
    }
    calls := calls + [Speak(readBuffer)];
    completeResponse := Concat(parts);
  }
}
