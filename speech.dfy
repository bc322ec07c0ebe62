/** The `Speaker` of gpt_ui: a FIFO of synthesis jobs drained by one worker,
    with a stop flag. Threads and subprocesses are replaced by a sequential
    state machine: every method call is one atomic step, the worker's
    liveness is a flag, and the cache directory is the set of file ids on disk. */
module Speech {
  import opened Strings

  /** `_prepare_text`: drop backticks, double quotes and the interpreter
      prompt `>>> `, turn underscores into spaces, then strip. */
  function PrepareText(readingBuffer: string): (r: string)
    ensures '`' !in r && '"' !in r && '_' !in r
    ensures Stripped(r) && Strip(r) == r
    ensures |r| <= |readingBuffer|
  {
    var noTicks := ReplaceAll(readingBuffer, "`", "");
    var noQuotes := ReplaceAll(noTicks, "\"", "");
    var noPrompt := ReplaceAll(noQuotes, ">>> ", "");
    var spaced := ReplaceAll(noPrompt, "_", " ");
    Strip(spaced)
  }

  lemma PromptAbsent()
    ensures ReplaceAll(">>>_x", ">>> ", "") == ">>>_x"
  {
    assert ReplaceAll(">_x", ">>> ", "") == ">_x";
    assert ">>_x"[..4][2] != ">>> "[2];
    assert ReplaceAll(">>_x", ">>> ", "") == ">>_x";
    assert ">>>_x"[..4][3] != ">>> "[3];
  }

  lemma UnderscoreSpaced()
    ensures ReplaceAll(">>>_x", "_", " ") == ">>> x"
  {
    assert ReplaceAll("x", "_", " ") == "x";
    assert ReplaceAll("_x", "_", " ") == " x";
    assert ReplaceAll(">_x", "_", " ") == "> x";
    assert ReplaceAll(">>_x", "_", " ") == ">> x";
  }

  lemma PromptRemoved()
    ensures ReplaceAll(">>> x", ">>> ", "") == "x"
  {
    assert ">>> x"[..4] == ">>> ";
  }

  /** Text without backticks or double quotes passes the first two removals unchanged. */
  lemma NoTicksNoQuotes(s: string)
    requires '`' !in s && '"' !in s
    ensures ReplaceAll(ReplaceAll(s, "`", ""), "\"", "") == s
  {
    ContainsChar(s, "`");
    ContainsChar(s, "\"");
  }

  lemma StrippedSamples()
    ensures Strip(">>> x") == ">>> x" && Strip("x") == "x"
  {
    assert Stripped(">>> x");
    assert Stripped("x");
  }

  lemma FirstPass()
    ensures PrepareText(">>>_x") == ">>> x"
  {
    NoTicksNoQuotes(">>>_x");
    PromptAbsent();
    UnderscoreSpaced();
    StrippedSamples();
  }

  lemma SecondPass()
    ensures PrepareText(">>> x") == "x"
  {
    NoTicksNoQuotes(">>> x");
    PromptRemoved();
    ContainsChar("x", "_");
    StrippedSamples();
  }

  /** Normalisation is not idempotent: a prompt marker can be created by
      turning an underscore into a space, and only a second pass removes it. */
  lemma PrepareTextNotIdempotent()
    ensures PrepareText(">>>_x") == ">>> x"
    ensures PrepareText(PrepareText(">>>_x")) == "x"
  {
    FirstPass();
    SecondPass();
  }

  /** One queued synthesis: the normalised text and the cache file it is written to. */
  datatype Job = Job(text: string, file: nat)

  /** One run of the audio player, and whether `stop` killed it. */
  datatype Playback = Playback(text: string, killed: bool)

  /** Where the worker is: testing the loop condition of `_process_queue`,
      waiting for the popped job's synthesis (`proc.wait()`), or waiting for
      the player (`speak_subprocess.wait()`). */
  datatype Phase = Waiting | Synthesizing(job: Job) | Playing(job: Job, killed: bool)

  /** What finishing the current phase plays. */
  function PhaseOutput(phase: Phase, cache: set<nat>): seq<Playback> {
    match phase
    case Waiting => []
    case Synthesizing(j) => if j.file in cache then [Playback(j.text, false)] else []
    case Playing(j, k) => [Playback(j.text, k)]
  }

  /** The playbacks of the queued jobs, in queue order: a job whose file is
      missing is skipped. */
  function Audible(queue: seq<Job>, cache: set<nat>): seq<Playback> {
    if queue == [] then []
    else (if queue[0].file in cache then [Playback(queue[0].text, false)] else [])
         + Audible(queue[1..], cache)
  }

  /** The file ids of the queue strictly increase and lie in [lo, hi). */
  predicate Ordered(queue: seq<Job>, lo: nat, hi: nat) {
    queue == [] || (lo <= queue[0].file < hi && Ordered(queue[1..], queue[0].file + 1, hi))
  }

  /** A fresh file id at the top of the range keeps the queue ordered. */
  lemma {:induction false} OrderedAppend(queue: seq<Job>, lo: nat, hi: nat, j: Job)
    requires Ordered(queue, lo, hi) && lo <= hi && j.file == hi
    ensures Ordered(queue + [j], lo, hi + 1)
  {
    if queue == [] {
      assert [j][1..] == [];
    } else {
      assert (queue + [j])[1..] == queue[1..] + [j];
      OrderedAppend(queue[1..], queue[0].file + 1, hi, j);
    }
  }

  /** A lower floor keeps the queue ordered. */
  lemma OrderedWeaken(queue: seq<Job>, lo: nat, lo': nat, hi: nat)
    requires Ordered(queue, lo, hi) && lo' <= lo
    ensures Ordered(queue, lo', hi)
  {
  }

  /** Deleting or creating a file outside the queue's range changes no playback. */
  lemma {:induction false} AudibleOtherFile(queue: seq<Job>, lo: nat, hi: nat, cache: set<nat>, f: nat)
    requires Ordered(queue, lo, hi) && (f < lo || hi <= f)
    ensures Audible(queue, cache - {f}) == Audible(queue, cache)
    ensures Audible(queue, cache + {f}) == Audible(queue, cache)
  {
    if queue != [] {
      AudibleOtherFile(queue[1..], queue[0].file + 1, hi, cache, f);
    }
  }

  /** A job appended at the tail plays after all earlier ones. */
  lemma {:induction false} AudibleAppend(queue: seq<Job>, j: Job, cache: set<nat>)
    ensures Audible(queue + [j], cache)
            == Audible(queue, cache) + (if j.file in cache then [Playback(j.text, false)] else [])
  {
    var tail := if j.file in cache then [Playback(j.text, false)] else [];
    if queue == [] {
      assert [j][1..] == [];
      assert Audible([j], cache) == tail + [];
    } else {
      var head := if queue[0].file in cache then [Playback(queue[0].text, false)] else [];
      assert (queue + [j])[0] == queue[0];
      assert (queue + [j])[1..] == queue[1..] + [j];
      assert Audible(queue + [j], cache) == head + Audible(queue[1..] + [j], cache);
      AudibleAppend(queue[1..], j, cache);
      AppendAssoc(head, Audible(queue[1..], cache), tail);
    }
  }

  /** Queued files lie above the file of the job the worker holds. */
  function FloorOf(phase: Phase): nat {
    if phase == Waiting then 0 else phase.job.file + 1
  }

  /** The speaker's invariant: queued files are fresh and ordered, every file
      on disk has a name already handed out, only a live worker holds a job,
      and without the stop flag a dead worker means nothing is queued. */
  ghost predicate Consistent(queue: seq<Job>, phase: Phase, cache: set<nat>, nextFile: nat,
                             alive: bool, stop: bool)
  {
    Ordered(queue, FloorOf(phase), nextFile)
    && (forall f :: f in cache ==> f < nextFile)
    && (phase != Waiting ==> alive && phase.job.file < nextFile)
    && (!alive && !stop ==> queue == [])
  }

  /** What a worker in this state plays if it runs undisturbed to its end. */
  ghost function PendingOf(queue: seq<Job>, phase: Phase, cache: set<nat>, alive: bool, stop: bool): seq<Playback>
  {
    if !alive then []
    else PhaseOutput(phase, cache) + (if stop then [] else Audible(queue, cache))
  }

  /** `speak` of a non-empty text keeps the invariant and adds exactly the new
      job's playback, if its file was written, at the end of what is pending. */
  lemma SpeakStep(queue: seq<Job>, phase: Phase, cache: set<nat>, nextFile: nat,
                  alive: bool, stop: bool, t: string, synthesized: bool)
    requires Consistent(queue, phase, cache, nextFile, alive, stop)
    ensures var job := Job(t, nextFile);
            var cache' := if synthesized then cache + {nextFile} else cache;
            var phase' := if alive then phase else Waiting;
            Consistent(queue + [job], phase', cache', nextFile + 1, true, stop)
            && PendingOf(queue + [job], phase', cache', true, stop)
               == PendingOf(queue, phase, cache, alive, stop)
                  + (if synthesized && !stop then [Playback(t, false)] else [])
  {
    var job := Job(t, nextFile);
    var cache' := if synthesized then cache + {nextFile} else cache;
    var added := if synthesized && !stop then [Playback(t, false)] else [];
    OrderedAppend(queue, FloorOf(phase), nextFile, job);
    AudibleAppend(queue, job, cache');
    if synthesized {
      AudibleOtherFile(queue, FloorOf(phase), nextFile, cache, nextFile);
    }
    if alive {
      var out0 := PhaseOutput(phase, cache);
      var rest0 := if stop then [] else Audible(queue, cache);
      assert PhaseOutput(phase, cache') == out0;
      assert (if stop then [] else Audible(queue + [job], cache')) == rest0 + added;
      AppendAssoc(out0, rest0, added);
    }
  }

  class Speaker {
    var queue: seq<Job>       // arg_queue
    var stopFlag: bool        // stop_flag
    var workerAlive: bool     // queue_processor is not None and is alive
    var phase: Phase          // the worker's position in _process_queue / _speak
    var cache: set<nat>       // cache files present on disk
    var nextFile: nat         // the next unique cache-file name (a timestamp in the source)
    var played: seq<Playback> // everything the audio player has run, in order

    ghost predicate Valid()
      reads this
    {
      Consistent(queue, phase, cache, nextFile, workerAlive, stopFlag)
    }

    /** What the worker will still play if it runs undisturbed to the end. */
    ghost function Pending(): seq<Playback>
      reads this
    {
      PendingOf(queue, phase, cache, workerAlive, stopFlag)
    }

    /** Everything played so far followed by everything still to be played. */
    ghost function Trace(): seq<Playback>
      reads this
    {
      played + Pending()
    }

    /** Steps the worker can still take. */
    ghost function Rank(): nat
      reads this
    {
      3 * |queue| + (match phase case Waiting => 0 case Playing(_, _) => 1 case Synthesizing(_) => 2)
      + (if workerAlive then 1 else 0)
    }

    constructor ()
      ensures Valid()
      ensures queue == [] && !stopFlag && !workerAlive && phase == Waiting
      ensures cache == {} && played == [] && Pending() == []
    {
      queue := [];
      stopFlag := false;
      workerAlive := false;
      phase := Waiting;
      cache := {};
      nextFile := 0;
      played := [];
    }

    /** `stop`: raise the flag (never lowered again), kill a running player,
        empty the queue. Cache files of the dropped jobs stay on disk. */
    method Stop()
      requires Valid()
      modifies this
      ensures Valid()
      ensures stopFlag && queue == []
      ensures phase == (if old(phase).Playing? then Playing(old(phase).job, true) else old(phase))
      ensures workerAlive == old(workerAlive) && cache == old(cache)
      ensures nextFile == old(nextFile) && played == old(played)
      ensures |Pending()| <= 1
    {
      stopFlag := true;
      if phase.Playing? {
        phase := Playing(phase.job, true);
      }
      queue := [];
    }

    /** `speak`: normalise and strip (one expression); on empty text do
        nothing; otherwise enqueue the text. */
    method Speak(text: string, synthesized: bool)
      requires Valid()
      modifies this
      ensures Valid()
      ensures stopFlag == old(stopFlag) && played == old(played)
      ensures |PrepareText(text)| == 0 ==>
        queue == old(queue) && workerAlive == old(workerAlive) && phase == old(phase)
        && cache == old(cache) && nextFile == old(nextFile)
      ensures |PrepareText(text)| > 0 ==>
        queue == old(queue) + [Job(PrepareText(text), old(nextFile))]
        && nextFile == old(nextFile) + 1
        && cache == (if synthesized then old(cache) + {old(nextFile)} else old(cache))
        && workerAlive
        && phase == (if old(workerAlive) then old(phase) else Waiting)
      ensures Pending() == old(Pending())
        + (if |PrepareText(text)| > 0 && synthesized && !stopFlag
           then [Playback(PrepareText(text), false)] else [])
    {
      var t := Strip(PrepareText(text));
      if |t| > 0 {
        Enqueue(t, synthesized);
      }
    }

    /** The non-empty branch of `speak`: start the synthesis of one job (whose
        file appears iff `synthesized`), append it at the tail and start a
        worker if none is alive. */
    method Enqueue(t: string, synthesized: bool)
      requires Valid()
      modifies this
      ensures Valid()
      ensures stopFlag == old(stopFlag) && played == old(played)
      ensures queue == old(queue) + [Job(t, old(nextFile))]
      ensures nextFile == old(nextFile) + 1
      ensures cache == (if synthesized then old(cache) + {old(nextFile)} else old(cache))
      ensures workerAlive
      ensures phase == (if old(workerAlive) then old(phase) else Waiting)
      ensures Pending() == old(Pending())
        + (if synthesized && !stopFlag then [Playback(t, false)] else [])
    {
      SpeakStep(queue, phase, cache, nextFile, workerAlive, stopFlag, t, synthesized);
      var job := Job(t, nextFile);
      nextFile := nextFile + 1;
      if synthesized {
        cache := cache + {job.file};
      }
      queue := queue + [job];
      if !workerAlive {
        workerAlive := true;
        phase := Waiting;
      }
    }

    /** The loop test of `_process_queue` and the `pop(0)` of `_speak`: take
        the head job, or let the worker end when the queue is empty or the
        stop flag is up. */
    method TakeNext()
      requires Valid() && workerAlive && phase == Waiting
      modifies this
      ensures Valid()
      ensures if |old(queue)| > 0 && !stopFlag
              then phase == Synthesizing(old(queue)[0]) && queue == old(queue)[1..] && workerAlive
              else queue == old(queue) && !workerAlive && phase == Waiting
      ensures stopFlag == old(stopFlag) && cache == old(cache)
      ensures nextFile == old(nextFile) && played == old(played)
      ensures Pending() == old(Pending()) && Trace() == old(Trace())
      ensures Rank() < old(Rank())
    {
      if |queue| > 0 && !stopFlag {
        var q := queue;
        ghost var before := Pending();
        assert before == Audible(q, cache);
        assert Audible(q, cache) == PhaseOutput(Synthesizing(q[0]), cache) + Audible(q[1..], cache);
        phase := Synthesizing(q[0]);
        queue := q[1..];
        assert Pending() == before;
      } else {
        workerAlive := false;
      }
    }

    /** `proc.wait()` returns: play the file if it exists, else skip the job. */
    method AwaitSynthesis()
      requires Valid() && phase.Synthesizing?
      modifies this
      ensures Valid()
      ensures phase == (if old(phase).job.file in cache then Playing(old(phase).job, false) else Waiting)
      ensures queue == old(queue) && workerAlive && stopFlag == old(stopFlag)
      ensures cache == old(cache) && nextFile == old(nextFile) && played == old(played)
      ensures Pending() == old(Pending()) && Trace() == old(Trace())
      ensures Rank() < old(Rank())
    {
      if phase.job.file in cache {
        phase := Playing(phase.job, false);
      } else {
        OrderedWeaken(queue, FloorOf(phase), 0, nextFile);
        phase := Waiting;
      }
    }

    /** The player exits (normally or killed): the file is deleted. */
    method AwaitPlayback()
      requires Valid() && phase.Playing?
      modifies this
      ensures Valid()
      ensures played == old(played) + [Playback(old(phase).job.text, old(phase).killed)]
      ensures cache == old(cache) - {old(phase).job.file}
      ensures phase == Waiting && queue == old(queue) && workerAlive
      ensures stopFlag == old(stopFlag) && nextFile == old(nextFile)
      ensures Trace() == old(Trace())
      ensures Rank() < old(Rank())
    {
      var j := phase.job;
      var p := Playback(j.text, phase.killed);
      ghost var before := played;
      ghost var rest := if stopFlag then [] else Audible(queue, cache);
      ghost var t0 := Trace();
      assert t0 == before + ([p] + rest);
      AudibleOtherFile(queue, j.file + 1, nextFile, cache, j.file);
      OrderedWeaken(queue, j.file + 1, 0, nextFile);
      played := played + [p];
      cache := cache - {j.file};
      phase := Waiting;
      assert Pending() == rest;
      AppendAssoc(before, [p], rest);
    }

    /** One step of the worker thread. */
    method Step()
      requires Valid() && workerAlive
      modifies this
      ensures Valid()
      ensures old(phase) == Waiting ==>
        if |old(queue)| > 0 && !stopFlag
        then phase == Synthesizing(old(queue)[0]) && queue == old(queue)[1..] && workerAlive
             && cache == old(cache) && played == old(played)
        else queue == old(queue) && !workerAlive && phase == Waiting
             && cache == old(cache) && played == old(played)
      ensures old(phase).Synthesizing? ==>
        phase == (if old(phase).job.file in cache then Playing(old(phase).job, false) else Waiting)
        && queue == old(queue) && workerAlive && cache == old(cache) && played == old(played)
      ensures old(phase).Playing? ==>
        played == old(played) + [Playback(old(phase).job.text, old(phase).killed)]
        && cache == old(cache) - {old(phase).job.file}
        && phase == Waiting && queue == old(queue) && workerAlive
      ensures stopFlag == old(stopFlag) && nextFile == old(nextFile)
      ensures stopFlag ==> queue == old(queue)
      ensures !workerAlive ==> stopFlag || queue == []
      ensures Trace() == old(Trace())
      ensures Rank() < old(Rank())
    {
      match phase
      case Waiting => TakeNext();
      case Synthesizing(_) => AwaitSynthesis();
      case Playing(_, _) => AwaitPlayback();
    }

    /** `_process_queue` run to its end with no concurrent `speak` or `stop`:
        exactly the pending playbacks happen, in enqueue order. With the stop
        flag up only the job already taken can still play. No file is created,
        and the file of every job the worker took is gone at the end. */
    method ProcessQueue()
      requires Valid()
      modifies this
      ensures Valid() && !workerAlive
      ensures played == old(played) + old(Pending())
      ensures old(workerAlive) && !stopFlag ==> queue == []
      ensures stopFlag ==> queue == old(queue)
      ensures stopFlag == old(stopFlag) && nextFile == old(nextFile)
      ensures cache <= old(cache)
      ensures old(workerAlive) && !stopFlag ==> forall j :: j in old(queue) ==> j.file !in cache
      ensures old(phase) != Waiting ==> old(phase).job.file !in cache
    {
      ghost var taken := 0;
      while workerAlive
        invariant Valid()
        invariant stopFlag == old(stopFlag) && nextFile == old(nextFile)
        invariant Trace() == old(Trace())
        invariant stopFlag ==> queue == old(queue)
        invariant !workerAlive ==> !old(workerAlive) || stopFlag || queue == []
        invariant cache <= old(cache)
        invariant old(workerAlive) && !stopFlag ==> taken <= |old(queue)| && queue == old(queue)[taken..]
        invariant forall i :: 0 <= i < taken && i < |old(queue)| ==>
                    old(queue)[i].file !in cache || (phase != Waiting && phase.job == old(queue)[i])
        invariant old(phase) != Waiting ==>
                    old(phase).job.file !in cache || (phase != Waiting && phase.job == old(phase).job)
        decreases Rank()
      {
        ghost var takes := phase == Waiting && |queue| > 0 && !stopFlag && old(workerAlive);
        Step();
        if takes {
          taken := taken + 1;
        }
      }
      if old(workerAlive) && !stopFlag {
        forall j | j in old(queue) ensures j.file !in cache {
          var i :| 0 <= i < |old(queue)| && old(queue)[i] == j;
        }
      }
    }
  }
}
