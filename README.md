# gpt_ui: streamed replies, sentence splitting and the speech queue

This project models, in Dafny, the core of the `gpt_ui` terminal chat client
(`gpt_ui/gpt_ui.py`), and proves properties of the model:

- **Sentence splitting** (`get_first_sentence`). A streamed reply is cut at the
  first newline or at the first end character (`. ? ! :` and the full-width
  `。？！`) that is followed by a space, a newline or a quote.
- **The speech queue** (`Speaker`). This is a FIFO of synthesis jobs, drained by
  one worker thread, with a stop flag that is never lowered. The threads and
  subprocesses become a sequential state machine (module `Speech`):
  - every method call is one atomic step;
  - the worker's liveness is a flag;
  - the cache directory is the set of file ids on disk;
  - what the audio player ran is a log.
  - `speak` is split in two. `Speak` computes the text as the single
    expression `Strip(PrepareText(text))`: the strip that ends `_prepare_text`
    followed by the second strip in `speak`. It hands a non-empty result to
    `Enqueue`, the branch that does the work.
    This keeps each proof small: Dafny never has to prove an equation about
    the normalised text inside `Speak`.
- **The chunk-consumption loop of `converse`** (module `Stream`). It collects
  the reply and hands sentences to the speaker. It is modelled as a method over
  the chunk sequence that records the speaker calls it makes.
- **Chat helpers** (module `Chat`):
  - whose turn is next;
  - token counting and trimming to a token budget, against an abstract
    tokenizer `enc`;
  - the Markdown export.
- **Markup and file-name helpers** (modules `Markup` and `FileNames`):
  - the colour and bold wrappers used for prompts;
  - `ensure_extension`;
  - `sanetize_filename`.

Module `Strings` writes out the Python string operations these rely on:
- `str.strip()`, with Python's whitespace set made explicit;
- `re.sub` on a literal pattern, as replace-all;
- the character-class deletion;
- `endswith`, `in` and `''.join`.

Main results:

- `SplitFirst` and `GetFirstSentence`:
  - the two parts always rejoin to the input;
  - the sentence is empty exactly when no index qualifies;
  - otherwise the sentence ends at the earliest qualifying index;
  - once a sentence is found, appending text leaves it unchanged and only
    extends the remainder.
- The stream loop loses nothing. The strings passed to `speak` (the sentences,
  then the final flush) join to exactly the reply, with or without a keyboard
  interrupt. Content-less chunks change nothing, and there is at most one
  `speak` per chunk plus the flush.
- The speaker:
  - `speak` appends exactly one job at the tail, or does nothing on text that
    normalises to empty;
  - the worker plays jobs in enqueue order and skips those whose file is
    missing;
  - it deletes the file of a played job;
  - running the worker to its end plays exactly what was pending.
  - After `stop`, at most the job the worker already holds is still played,
    and later `speak` calls add nothing to what will be played.
- `trim_chat` keeps the first message and the longest suffix whose running
  count stays within the budget (none when the first message alone exceeds
  it). It is greedy, and it reports the overflowing count when it drops
  something.

## Model

| member | source | states |
|---|---|---|
| `Strings.Strip` | gpt_ui/gpt_ui.py:388 | the result has no whitespace at either end, is no longer than the input and holds only its characters, and an already stripped string is returned unchanged |
| `Strings.StripSlice` | gpt_ui/gpt_ui.py:388 | the result is a contiguous slice of the input, and every character before it and after it is whitespace |
| `Strings.ReplaceAll` | gpt_ui/gpt_ui.py:382-387 | literal replacement adds only characters of the replacement, and a replacement no longer than the pattern never lengthens the text. A one-character pattern absent from the replacement is absent from the result; a text in which the pattern does not occur is returned unchanged |
| `Strings.ReplaceAllChar` | gpt_ui/gpt_ui.py:382-387 | with a one-character pattern, a single character becomes the replacement when it is the pattern and stays as it is otherwise |
| `Strings.ReplaceAllConcat` | gpt_ui/gpt_ui.py:382-387 | with a one-character pattern, replacing in a concatenation is replacing in each part: every other character survives, in order |
| `Strings.DeleteChars` | gpt_ui/gpt_ui.py:442 | the result is no longer than the input, and is the input when none of its characters is in the class |
| `Strings.DeleteCharsMembers` | gpt_ui/gpt_ui.py:442 | only characters of the input outside the class are left |
| `Strings.DeleteCharsChar` | gpt_ui/gpt_ui.py:442 | a single character is deleted exactly when it is in the class |
| `Strings.DeleteCharsConcat` | gpt_ui/gpt_ui.py:442 | deleting from a concatenation is deleting from each part: every character outside the class is kept, in order |
| `Strings.EndsWith` | gpt_ui/gpt_ui.py:270 | `s` ends with `suffix` exactly when `s` is some string followed by `suffix` |
| `Strings.Contains` | gpt_ui/gpt_ui.py:88 | a string that starts with `sub` contains it, and a contained string is no longer than the text |
| `Strings.ContainsAt` | gpt_ui/gpt_ui.py:88 | `sub in s` holds exactly when `sub` occurs in `s` at some index |
| `Strings.ContainsChar` | gpt_ui/gpt_ui.py:88 | a one-character string is contained exactly when its character occurs |
| `Strings.Concat` | gpt_ui/gpt_ui.py:679 | joining one part gives that part |
| `Strings.ConcatSnoc` | gpt_ui/gpt_ui.py:679 | joining one more part appends it to the join |
| `Strings.ConcatAppend` | gpt_ui/gpt_ui.py:679 | joining two lists of parts one after the other is joining each and concatenating |
| `Sentences.IsEndChar` | gpt_ui/gpt_ui.py:406 | an end character is exactly a member of `end_chars` (`. ? ! :` and the full-width `。？！`) |
| `Sentences.IsFollower` | gpt_ui/gpt_ui.py:409-412 | a follower is exactly one of the four characters paired with each end character: space, newline, `"` and `'` |
| `Sentences.IsEndMarker` | gpt_ui/gpt_ui.py:406-412 | an end marker is two characters long and starts neither with a newline nor with a space |
| `Sentences.MarkersOf` | gpt_ui/gpt_ui.py:409-412 | the four markers appended for one end character are exactly its pairings with the followers |
| `Sentences.EndMarkers` | gpt_ui/gpt_ui.py:406-412 | the loop builds four markers per end character, and a string is in the list exactly when it is an end character followed by a follower |
| `Sentences.Qualifies` | gpt_ui/gpt_ui.py:417 | an index qualifies only when it holds a newline, or an end character followed by a follower inside the text |
| `Sentences.QualifiesExtend` | gpt_ui/gpt_ui.py:417 | appending text does not change the test at an index whose two-character window lies inside the buffer |
| `Sentences.FirstIndexFrom` | gpt_ui/gpt_ui.py:414-420 | the scan finds the earliest index at or after `from` holding `\n` or starting an end marker, or reports that none does |
| `Sentences.SplitFirst` | gpt_ui/gpt_ui.py:402-421 | the sentence and the remainder rejoin to the text. The sentence is empty exactly when no index qualifies; otherwise it ends at the first qualifying index |
| `Sentences.GetFirstSentence` | gpt_ui/gpt_ui.py:402-421 | the `for`/`break` scan, testing membership in the list `EndMarkers` builds, returns the split `SplitFirst` specifies |
| `Sentences.SentenceEnding` | gpt_ui/gpt_ui.py:406-420 | a non-empty sentence ends in a newline, or in an end character whose follower (space, newline or quote) begins the remainder |
| `Sentences.SplitFirstStable` | gpt_ui/gpt_ui.py:414-421 | once a sentence is found, appending text leaves the sentence unchanged and only extends the remainder |
| `Speech.PrepareText` | gpt_ui/gpt_ui.py:381-389 | the normalised text contains no backtick, double quote or underscore, has no whitespace at either end (so the second `strip` in `speak`, line 355, returns it unchanged), and is no longer than the input |
| `Speech.PrepareTextNotIdempotent` | gpt_ui/gpt_ui.py:381-389 | `>>>_x` normalises to `>>> x`, and a second pass gives `x`. Turning `_` into a space after deleting `>>> ` can create a new prompt marker |
| `Speech.OrderedAppend` | gpt_ui/gpt_ui.py:376 | a job whose file name is fresher than all others keeps the queue's file names ordered and distinct |
| `Speech.AudibleAppend` | gpt_ui/gpt_ui.py:359 | a job appended at the tail plays after every earlier job |
| `Speech.AudibleOtherFile` | gpt_ui/gpt_ui.py:397-399 | deleting or creating a file outside the queue's names changes no queued playback |
| `Speech.SpeakStep` | gpt_ui/gpt_ui.py:357-363 | enqueueing a job keeps the speaker's invariant, and adds exactly that job's playback (when its file was written and the flag is down) at the end of what is pending |
| `Speech.Speaker.constructor` | gpt_ui/gpt_ui.py:340-345 | a new speaker has an empty queue, the flag down, no worker and nothing pending |
| `Speech.Speaker.Stop` | gpt_ui/gpt_ui.py:347-351 | raises the flag, empties the queue, and marks a running playback killed. At most one playback (the job already taken) is still pending |
| `Speech.Speaker.Speak` | gpt_ui/gpt_ui.py:353-363 | text that normalises to empty changes nothing. Otherwise exactly one job carrying the normalised text goes at the tail of the unchanged queue, and a worker is started only if none was alive. What will be played grows by that one job, unless the flag is up |
| `Speech.Speaker.Enqueue` | gpt_ui/gpt_ui.py:357-363 | the job is appended at the tail with a fresh file, the file exists iff synthesis succeeded, the worker is alive afterwards, and the pending playbacks grow by this job (unless stopped) |
| `Speech.Speaker.TakeNext` | gpt_ui/gpt_ui.py:391-392 | at the loop test of `_process_queue` (line 366), with jobs queued and the flag down the worker takes the head (`pop(0)`); otherwise the worker ends. Nothing still to be played changes |
| `Speech.Speaker.AwaitSynthesis` | gpt_ui/gpt_ui.py:393-395 | a job whose cache file is missing is skipped without playback; one whose file exists goes to the player |
| `Speech.Speaker.AwaitPlayback` | gpt_ui/gpt_ui.py:395-399 | the player's run is logged (killed or not), the played job's file is deleted, and the worker returns to the loop test |
| `Speech.Speaker.Step` | gpt_ui/gpt_ui.py:365-399 | one worker step, by the phase it starts in. At the loop test it takes the head of the queue when jobs are queued and the flag is down, and ends the worker otherwise. After synthesis it goes to the player when the file exists and back to the loop test when not. After playback it logs the run, deletes the file and returns to the loop test. Every step keeps the invariant and what has been and will be played |
| `Speech.Speaker.ProcessQueue` | gpt_ui/gpt_ui.py:365-369 | the worker ends, having played exactly what was pending, in enqueue order. Without the flag the queue is drained; with it no further job is taken. No cache file is created; the file of the job the worker held, and without the flag the file of every queued job, is gone at the end |
| `Stream.Delivered` | gpt_ui/gpt_ui.py:652-659 | the fragments that carried content, never more than the chunks |
| `Stream.Feed` | gpt_ui/gpt_ui.py:652-673 | at most one `speak` per content-carrying chunk, and never one with an empty sentence |
| `Stream.AsCalls` | gpt_ui/gpt_ui.py:673 | one `speak` call per sentence, in order |
| `Stream.FeedSnoc` | gpt_ui/gpt_ui.py:652-673 | one more chunk is one more step of the loop, and adds its fragment, if any, to the delivered ones |
| `Stream.FeedConcatStep` | gpt_ui/gpt_ui.py:656-673 | one more fragment keeps the spoken sentences and the buffer equal, joined, to all that was delivered |
| `Stream.FeedConcat` | gpt_ui/gpt_ui.py:652-673 | the spoken sentences followed by the leftover buffer are exactly the delivered fragments joined: nothing is lost or repeated |
| `Stream.FeedSkipsMissing` | gpt_ui/gpt_ui.py:658-666 | a chunk without content changes neither the reply nor what is spoken |
| `Stream.SpokenAsCalls` | gpt_ui/gpt_ui.py:673 | the text of the logged `speak` calls is the join of the sentences |
| `Stream.FlushSpoken` | gpt_ui/gpt_ui.py:674-678 | the call log (sentences, an optional `stop`, the final flush) speaks the sentences and then the buffer |
| `Stream.RunSpoken` | gpt_ui/gpt_ui.py:674-679 | the call log of a whole run speaks exactly the delivered text, interrupted or not |
| `Stream.ConsumeChunk` | gpt_ui/gpt_ui.py:652-673 | the body of the stream loop turns the state after the chunks seen so far into the state after one more chunk |
| `Stream.ConsumeStream` | gpt_ui/gpt_ui.py:645-679 | the reply is the join of the delivered fragments. The calls are the per-chunk sentences, a `stop` if interrupted, then the flush of the buffer. Their spoken text joins to exactly the reply, and there are at most two more calls than fragments |
| `Chat.NextRole` | gpt_ui/gpt_ui.py:96-102 | `system` exactly for the empty chat, `assistant` exactly after a user message, `user` otherwise |
| `Chat.NextRoleAlternates` | gpt_ui/gpt_ui.py:96-102 | after any appended message the next role differs from that message's role and is never `system` |
| `Chat.TokenSumConcat` | gpt_ui/gpt_ui.py:118-122 | the token count of a chat is additive over its parts |
| `Chat.TokenSumSuffixMonotone` | gpt_ui/gpt_ui.py:126-131 | a longer suffix of the chat never has fewer tokens |
| `Chat.NumberOfTokens` | gpt_ui/gpt_ui.py:118-122 | the loop sums the token counts of all contents |
| `Chat.TrimChat` | gpt_ui/gpt_ui.py:124-133 | the result is the first message followed by a suffix of the rest, in order. A non-empty kept suffix fits the budget. When a message is dropped, the count returned includes the next-older message and exceeds the budget; when none is, the chat comes back whole with its total count |
| `Chat.LongerSuffixOverBudget` | gpt_ui/gpt_ui.py:126-131 | trimming is greedy: once the next-older message breaks the budget, every longer suffix would too |
| `Chat.SpeakerName` | gpt_ui/gpt_ui.py:425-430 | the assistant is shown by its model and the user by their user name, each defaulting to the role name when the key is absent; any other role by itself |
| `Chat.MarkdownLine` | gpt_ui/gpt_ui.py:432 | the line is `**`, the speaker name, `:** `, the content and a newline, and both the name and the content can be read back at their positions |
| `Chat.MarkdownBodyPrefix` | gpt_ui/gpt_ui.py:431-432 | the export of one more message appends that message's line |
| `Chat.MarkdownBodyConcat` | gpt_ui/gpt_ui.py:426-432 | exporting a chat in two parts gives the two exports joined, one line per message in order |
| `Chat.ChatToMarkdown` | gpt_ui/gpt_ui.py:423-433 | the accumulator loop produces the fixed header followed by one line per message |
| `Markup.HTMLColor` | gpt_ui/gpt_ui.py:80-81 | the text wrapped in the opening and closing style tags, and nothing else |
| `Markup.HTMLBold` | gpt_ui/gpt_ui.py:83-84 | the text wrapped in `<b>` and `</b>`, and nothing else |
| `Markup.BoldRoundTrip` | gpt_ui/gpt_ui.py:83-84 | unwrapping a bold element gives back its text |
| `Markup.ColorRoundTrip` | gpt_ui/gpt_ui.py:80-81 | unwrapping a style element of the same colour gives back its text |
| `Markup.RoleColor` | gpt_ui/gpt_ui.py:87-93 | blue exactly when the role contains `system`, green exactly when it contains `user` but not `system`, red otherwise |
| `Markup.Label` | gpt_ui/gpt_ui.py:88-93 | the given text when it is present and non-empty, else the role |
| `Markup.ColorByRole` | gpt_ui/gpt_ui.py:86-94 | a bold element whose content is a style element in the role's colour, and unwrapping both gives back the label |
| `FileNames.EnsureExtension` | gpt_ui/gpt_ui.py:263-276 | the result ends with the extension. An input already ending with it is returned unchanged, and any other gets it appended |
| `FileNames.EnsureExtensionIdempotent` | gpt_ui/gpt_ui.py:270-273 | applying it twice is the same as once |
| `FileNames.SanitizeFilename` | gpt_ui/gpt_ui.py:439-444 | the result has no colon and none of `< > " / \| ? *`, no whitespace at either end, and at most three times the input's length |
| `FileNames.DashedLength` | gpt_ui/gpt_ui.py:441 | replacing each colon by ` - ` at most triples the length |
| `FileNames.SanitizeIdempotent` | gpt_ui/gpt_ui.py:439-444 | a sanitised name is unchanged by a second pass |

## Left out

- Threads:
  - `speak`, `_process_queue` and `_speak` run on threads in the source. Here each worker action is one atomic method. The interleavings of `speak` and `stop` with the worker are not modelled, except between whole steps.
  - So is the race in which `speak` sees the worker still alive just as it leaves its loop. That race can leave a job queued with no worker.
  - So is a `stop` between the worker's loop test and its `pop(0)`, which makes `pop` raise on the emptied queue. Steps are atomic here, so it cannot happen.
- Subprocesses and the filesystem are left out: `gsay` synthesis, the `mpv` player, `kill`, `wait`, `Path.exists` and `unlink`.
  - Synthesis is modelled by a `synthesized` flag: the cache file appears exactly when it is set.
  - The player is modelled as a log of playbacks.
- `_precompute_speech`: the `.aiff`/`.mp3` choice and the command line are not modelled. Cache-file names are timestamps from a module outside the model; here they are a counter of fresh ids.
- `Speech.Speaker.Stop`: a player killed by `stop` is logged as one killed playback. How much of the audio was heard is not modelled.
- Behaviour of the code that a reader might not expect:
  - The stop flag is never lowered. After a `stop`, later `speak` calls still enqueue and synthesize, but nothing more is played.
  - `stop` does not delete the cache files of the jobs it drops.
  - A job the worker already took is still played after `stop`, unless it was playing and got killed.
- The stream loop:
  - Only the `AttributeError` path for a chunk is modelled, as `None`. Any other exception (backup of the chat, then re-raise) is not.
  - A chunk whose content is `None` (which makes `read_buffer += c` raise) is not modelled.
  - A keyboard interrupt is modelled between chunks only.
  - The `print` of each fragment is not modelled, and neither are the retry loop and the OpenAI request before it.
- `Chat.TrimChat`:
  - It requires a non-empty chat because the source raises `IndexError` on one.
  - The tokenizer (`tiktoken`) is an abstract function `enc` from content to a count.
  - `max_tokens` is a parameter.
- `Chat.Message`:
  - The `date` field is not modelled.
  - A `model` or `user` key present with value `None` (which the export would show as `None`) is not modelled; `None` here means the key is absent.
- `FileNames.EnsureExtension`: the `Path` branch of `ensure_extension` (convert to a string and back) is left out. Only strings are modelled.
- `FileNames.SanitizeFilename`: the substitution of `\.^` is not written out. That pattern can never match, so it is the identity.
- Python's `str.strip()` whitespace set is written out as a fixed list of code points.
- The following are I/O, network or process calls and are not part of this model:
  - `converse`'s prompt loop and its command dispatch;
  - `print_chat`, `append_to_chat`, `backup_chat`, `list_chats`, `edit_chat`, `save_chat_as_markdown`, `debug_notify` and `set_terminal_title`;
  - the link expanders and file search;
  - `get_summary` and the toolbar.
