# Reachy quiz and live-chat logic, modelled in Dafny

This project models the sequential logic of the Reachy Mini scripts that talk to
Gemini:

- the quiz games (`quiz_game.py` typed, `quiz_voice.py` spoken, `quiz_simple.py`
  single question), which parse the model's generated question, read its
  CORRECT/INCORRECT verdict, decide whether the player wants another round, keep
  the score and grade the game;
- the API-key lookup at the top of `quiz_simple.py`;
- the audio buffer shaping of the live chat bridge (`main.py`) and of the quiz
  recorders: stereo-to-mono folding, resample target lengths, 16-bit PCM
  framing, mono-to-stereo duplication, skipping empty chunks, and the
  start/stop lifecycle with its `running` flag and cleanup.

Everything is pure functions over immutable values. Strings are `seq<char>`.
Audio samples are abstract `real`s. The parts that the scripts hand to other
code become parameters:

- the model's replies and transcripts are string inputs;
- scipy's `resample` is a function parameter of which only the output length is
  assumed, for a positive target (`Streaming.ExactLength`);
- the float-to-int16 and int16-to-float casts are function parameters;
- device polls are given as a finite list of optional buffers.

Modules: `Text` (the Python `str` operations used), `ReplyParse`, `Verdict`,
`Replay`, `Scoring`, `Credentials`, `Pcm`, `AudioShape`, `Recording`,
`Streaming`, `Lifecycle`, and `Results` (Option/Result).

Four behaviours of the code worth noting:

- The resample length is `int(len * to / from)`, which truncates. It is not
  rounded, and a round trip between two rates can lose more than one sample
  (`AudioShape.TruncationLosesMoreThanOne`). What does hold is proved in
  `AudioShape.TargetLengthRoundTrip`.
- `stop` is not best-effort. None of its cleanup calls is guarded, so the first
  one that raises skips every later one: a close that raises leaves the device
  running, and a `stop_recording` that raises leaves playback on
  (`Lifecycle.Stop`, `Lifecycle.RaisingStepCutsCleanup`).
- An inbound payload with an odd number of bytes makes `np.frombuffer` raise.
  The rest of that `receive()` iteration is abandoned, including the remaining
  parts of the current message (`Streaming.PlayTurn`).
- scipy's `resample` raises when asked for zero samples. A buffer too short
  for its target length to reach one sample is dropped on the way up
  (`Streaming.AudioUpStep`) and breaks the turn on the way down
  (`Streaming.AudioDownStep`).

## Model

| member | source | states |
|---|---|---|
| `Text.Strip` | quiz_game.py:113 | `strip()` leaves a result that neither starts nor ends with whitespace. The result is empty exactly when the input is all whitespace. Otherwise it is the slice between the leading and trailing whitespace counts. |
| `Text.Split` | quiz_game.py:80 | `split('\n')` gives at least one piece. No piece contains the separator, and joining the pieces with it gives back the input. |
| `Text.SplitJoin` | quiz_game.py:80 | Splitting undoes joining for separator-free pieces, so the lines of a reply are exactly its newline-separated pieces. |
| `Text.Upper` | quiz_game.py:114 | Each lower-case ASCII letter becomes its capital and every other character stays. No lower-case letter is left. |
| `Text.Lower` | quiz_game.py:155 | Each ASCII capital becomes its lower-case letter and every other character stays. No capital is left. |
| `Text.IndexOf` | quiz_game.py:115 | The index found is the first occurrence of the character. |
| `Text.RemoveAll` | quiz_game.py:88 | `replace(tag, "")` keeps only characters of the line. Any occurrence of the tag, anywhere, removes at least the tag's length. |
| `Text.RemoveAllKeepsPrefix` | quiz_game.py:88 | Text before the first occurrence of the tag is copied through unchanged, and the pass carries on with the rest. |
| `Text.RemoveAllFirstOccurrence` | quiz_game.py:88 | The left-to-right pass removes the first occurrence, keeps what precedes it and resumes right after it. With `RemoveAllAbsent` this fixes the result. |
| `Text.RemoveAllAbsent` | quiz_game.py:88 | `replace(tag, "")` leaves a line without the tag unchanged. |
| `ReplyParse.Lines` | quiz_game.py:80 | A reply has at least one line. No line holds a newline, and joining the lines with newlines gives the stripped reply. |
| `ReplyParse.ParseReply` | quiz_game.py:79-95 | The parse loop computes, for each field, the value of the last line carrying its tag, or `""`. The loop in quiz_voice.py:167-183 is identical. |
| `ReplyParse.LastTaggedIsLast` | quiz_game.py:86-92 | The chosen line is absent exactly when no line carries the tag. Otherwise it is the tagged line that no later line overrides. |
| `ReplyParse.FieldOfLastTagged` | quiz_game.py:82-92 | A field whose tag never appears stays `""`. Otherwise the last tagged line's value (tag removed, stripped) is the field. |
| `ReplyParse.LaterLinesOverride` | quiz_voice.py:174-180 | Last write wins. Appended lines replace a field exactly when one of them carries its tag. Untagged lines change nothing. |
| `ReplyParse.TagsExclusive` | quiz_game.py:87-92 | No line starts with two tags, so each line feeds at most one field. The if/elif order never hides a field. |
| `ReplyParse.TaggedLineValue` | quiz_game.py:88 | A tagged line whose remainder does not repeat the tag yields the stripped text after the tag. |
| `ReplyParse.WellFormedReply` | quiz_game.py:68-92 | A reply in the prompted QUESTION/ANSWER/HINT format parses into its three stripped fields, whatever whitespace follows the hint. |
| `Verdict.Judge` | quiz_game.py:113-117 | The verdict is correct iff the first seven characters of the stripped reply, upper-cased, spell CORRECT. The message is the text after the first space, and `""` when the reply has no space. |
| `Verdict.UpperStartsWith` | quiz_game.py:114 | `upper().startswith(word)` holds exactly when the first characters, upper-cased one by one, spell the word. |
| `Verdict.AfterFirstSpace` | quiz_game.py:115 | With a space, the message is what follows the first space. Without one, it is `""`. |
| `Verdict.IncorrectIsNotCorrect` | quiz_game.py:114 | A reply opening with INCORRECT, in any case, is never read as correct. |
| `Verdict.AnyCaseAccepted` | quiz_voice.py:202 | CORRECT in any letter case at the head of a reply is accepted, whatever follows, trailing whitespace included. |
| `Verdict.ComposedReply` | quiz_voice.py:203 | For a reply made of a space-free word, one space and a message, the message is recovered exactly. |
| `Replay.SpokenAgain` | quiz_voice.py:256-262 | No recording means stop. Otherwise the answer is yes iff one of yes/yeah/sure/ok occurs in the lower-cased transcript. |
| `Replay.MentionsOneOfFour` | quiz_voice.py:260 | The chain of four `in` tests is the search for any accepted word in the transcript. |
| `Replay.TypedAgain` | quiz_game.py:155-156 | A typed reply means yes exactly when, after trimming, it spells one of yes/y/yeah/sure/ok letter by letter in any case. An accepted reply is one to four characters, and every one except `y` is also accepted by the spoken test. |
| `Replay.SimpleChecksAnswer` | quiz_simple.py:142 | No recording is never checked. A recording is checked exactly when its stripped transcript is neither empty nor UNCLEAR. |
| `Replay.SpokenYesSurvivesContext` | quiz_voice.py:260 | Surrounding an accepted transcript with more words never turns it into a no. |
| `Replay.SubstringAcceptsBook` | quiz_voice.py:259-260 | The spoken test accepts `book` because it contains `ok`. The typed test rejects it. |
| `Scoring.TypedOutcome` | quiz_game.py:132-156 | An empty answer gives no point and the game goes on. For a non-empty answer, the round scores iff the verdict is CORRECT, and the game goes on iff the typed reply is a yes. |
| `Scoring.SpokenOutcome` | quiz_voice.py:222-262 | No audio, or an empty or UNCLEAR transcript, gives no point and the game goes on. For an understood answer, the round scores iff the verdict is CORRECT, and the game goes on iff the spoken reply is a yes. |
| `Scoring.GuardsAgree` | quiz_simple.py:142 | quiz_simple.py checks an answer exactly when quiz_voice.py would judge it. A skipped answer never scores and never stops the game. |
| `Scoring.Step` | quiz_game.py:125-144 | A round adds one question and at most one point. It adds a point iff it scored, and it keeps `score <= questions_asked`. |
| `Scoring.Play` | quiz_game.py:170-172 | Rounds run until one declines. Questions equal the start plus rounds played, and the score rises by the points of exactly those rounds. `score <= questions_asked` is kept. |
| `Scoring.GameConsistent` | quiz_voice.py:277-287 | A whole game from zero ends with `score <= questions_asked`, one question per round, and a grade iff a round was played. |
| `Scoring.Grade` | quiz_game.py:180-190 | No grade without questions. Otherwise champion at a percentage of at least 80, great job from 60 up to 80, good effort below 60, with the percentage in exact arithmetic. |
| `Scoring.GradeMonotone` | quiz_voice.py:287-297 | More correct answers out of the same questions never lower the grade. |
| `Scoring.GradeExtremes` | quiz_voice.py:288-297 | A perfect game is champion. A game without points is good effort. |
| `Credentials.LineValue` | quiz_simple.py:21-22 | The value is everything after the first `=` of the stripped line: prefix plus value is the stripped line. |
| `Credentials.ValueKeepsEquals` | quiz_simple.py:22 | A value that itself contains `=` is kept whole. |
| `Credentials.KeyFromDotenv` | quiz_simple.py:17-23 | There is no key iff no line starts with the prefix. Otherwise the first matching line gives the key, because of the `break`. |
| `Credentials.LookupKey` | quiz_simple.py:15-27 | A non-empty environment value is used without reading `.env`. Otherwise the first `.env` match is used. No key, or an empty one, is exit status 1. |
| `Credentials.FirstMatchShadowsLater` | quiz_simple.py:20-27 | An empty first match hides any later good line, and the script exits. |
| `Pcm.Encode` | main.py:116 | 16-bit PCM takes exactly two bytes per sample, with sample `i` at bytes `2i, 2i+1`. |
| `Pcm.Decode` | main.py:176 | `n` bytes decode to `n / 2` samples. An odd `n` is an error. |
| `Pcm.DecodeEncode` | main.py:176 | Decoding an encoded sample sequence gives it back. |
| `Pcm.EncodeDecode` | main.py:116 | Every even-length byte string is the encoding of what it decodes to. |
| `AudioShape.MonoForStream` | main.py:104-108 | A two-channel chunk becomes one sample per frame, the mean of its channels. Any other shape is flattened. |
| `AudioShape.Flatten` | main.py:108 | A one-dimensional array is kept. A matrix of `w` channels gives `frames * w` samples, with channel `j` of frame `i` at `i * w + j`. |
| `AudioShape.FlattenRowsAt` | main.py:108 | The flattened rows are in row-major order: channel `j` of frame `i` lands at `i * w + j`. |
| `AudioShape.MonoForRecording` | quiz_voice.py:110-112 | A two-channel recording becomes per-frame means of the same length. Any other shape is left unchanged. |
| `AudioShape.Duplicate` | main.py:185 | Stereo output has one frame per mono sample, with both channels equal to it. |
| `AudioShape.MeanOfDuplicate` | main.py:185 | Folding duplicated stereo back to mono gives the mono signal. |
| `AudioShape.TargetLength` | main.py:112 | The target length is `floor(n * to / from)`. A zero source rate is the division error. |
| `AudioShape.TargetLengthPositive` | main.py:112 | The target length is at least one sample exactly when `n * to >= from`. |
| `AudioShape.TargetLengthSameRate` | main.py:111 | Equal rates give the unchanged length, so skipping the resampler then is consistent. |
| `AudioShape.TargetLengthRoundTrip` | main.py:181 | Going to another rate and back never lengthens a buffer, and loses fewer than `(r1 + r2) / r2` samples. |
| `AudioShape.TruncationLosesMoreThanOne` | main.py:112 | 5 samples at 48 kHz become 1 at 16 kHz, which becomes 3 back. |
| `Recording.Collected` | quiz_voice.py:98-102 | Only non-None, non-empty chunks are kept, never more than the polls. Nothing is kept iff every poll was None or empty. |
| `Recording.CollectedOne` | quiz_voice.py:99-101 | One poll is kept exactly when it brought a non-empty chunk. |
| `Recording.CollectedAppend` | quiz_simple.py:66-70 | The chunks kept over two stretches of polls are those of the first stretch followed by those of the second. |
| `Recording.Append` | quiz_voice.py:107 | Two arrays join iff their shapes beyond the first axis agree. The result holds the entries of the first, then those of the second. |
| `Recording.Concatenate` | quiz_voice.py:107-108 | Concatenation succeeds iff all chunks have the same shape. Its length is the sum of the chunk lengths. |
| `Recording.ConcatenateContents` | quiz_simple.py:76 | Entry `k` of chunk `i` sits in the concatenation at the total length of the chunks before it, plus `k`. |
| `Recording.Record` | quiz_simple.py:58-81 | A recording is None iff no chunk was kept. Otherwise it fails iff a kept chunk differs in shape from the first, and else it is the mono fold of the concatenated chunks, as long as they are together. |
| `Streaming.Convert` | main.py:180-182 | Equal rates leave the buffer untouched. Otherwise it is resampled to `floor(len * to / from)` samples. A zero source rate, or a target of zero samples, fails. |
| `Streaming.AudioUpStep` | main.py:98-121 | A None or empty poll sends nothing. The chunk is dropped iff it cannot be brought to 16 kHz, which includes a zero device rate. Otherwise one blob of 2 bytes per 16 kHz mono sample is sent; at 16 kHz it decodes to the quantised mono samples. |
| `Streaming.AudioUpRun` | main.py:95-125 | Never more blobs than polls. A zero device rate sends nothing but does not stop the loop. At 16 kHz, one blob is sent per non-empty poll. |
| `Streaming.AudioUpRunOne` | main.py:98-121 | A single poll sends what one iteration of the loop sends. |
| `Streaming.AudioUpRunAppend` | main.py:95-125 | Two stretches of polls send the blobs of the first, then those of the second, none lost or reordered. |
| `Streaming.AudioDownStep` | main.py:172-188 | Empty data is skipped. The part breaks iff it has odd length or cannot be brought to the output rate. Otherwise `n / 2` samples, resampled to the output rate, are played as two equal channels; at 24 kHz they are the dequantised samples themselves. |
| `Streaming.PlayTurn` | main.py:163-188 | One `receive()` iteration is cut short iff some part breaks. Otherwise one push is made per non-empty part, each two-channel. |
| `Streaming.Gather` | main.py:168-188 | The turn loop ends early iff some step broke. Without a break it pushes one two-channel frame block per step that played. |
| `Streaming.GatherAppend` | main.py:168-188 | Running the turn loop over two stretches of steps is running it over the first, then, unless that broke, over the second. |
| `Streaming.PlaysNonEmpty` | main.py:172-173 | When no part breaks, exactly the parts that carry data play. |
| `Streaming.PlayTurnOne` | main.py:172-188 | A single part plays what one step of the loop plays. |
| `Streaming.PlayTurnAppend` | main.py:168-188 | Playing the parts of a turn in two stretches is playing the first, then, unless it broke, the second. |
| `Streaming.AbortKeepsPrefix` | main.py:163-188 | A turn cut short by its first breaking part has pushed exactly what the parts before it push. |
| `Streaming.PlayedChannelsAgree` | main.py:176-185 | Folding what is played back to mono gives the decoded, dequantised payload. |
| `Lifecycle.Start` | main.py:42-75 | `running` is true iff the session connected, and then both the device and the session exist. |
| `Lifecycle.PlannedOrder` | main.py:77-87 | Without a raising step, `stop` closes the session iff there is one, and first; it stops recording, stops playing and releases the device iff there is a device, in that order and last. No step repeats. |
| `Lifecycle.Stop` | main.py:77-87 | `running` becomes false. The steps attempted are a prefix of the planned ones. `stop` raises iff the faulty step is planned, and then that step is the last attempted; otherwise every planned step runs. |
| `Lifecycle.RaisingStepCutsCleanup` | main.py:80-87 | A planned step that was not attempted lies after the step that raised. |
| `Lifecycle.Run` | main.py:199-221 | The loops start iff the connect succeeded. Cleanup always runs: nothing without a device. After a failed connect it is a prefix of the device steps, and it raises iff a device step fails. After a normal run it is a prefix of close-then-device, and it raises iff any step fails. Without a raise every planned step runs; with one, the failing step is the last attempted. |

## Left out

- Network calls: Gemini `generate_content`, the live session's connect/send/receive, the `requests` HTTP calls and test_hello.py. Their replies are model inputs.
- Device I/O: `get_audio_sample`, `push_audio_sample`, `get_frame`, `goto_target` and the animation helpers. Polls are input lists, and pushes are outputs.
- The video loop `capture_and_send_video`: cv2 resize and JPEG encoding are foreign code, and its 1 FPS pacing is wall-clock timing.
- `asyncio.gather`, sleeps, the recording time windows and KeyboardInterrupt: concurrency and timing. In particular, the `if not self.running: break` inside a turn (main.py:166-167) is not modelled.
- scipy's resample values, the `* 32767` and `/ 32767.0` casts, and float32 rounding in `np.mean` are floating point. Only lengths and shapes are modelled. Resampling and the casts are parameters.
- `Scoring.Grade`: compares the exact percentage. Python's float percentage agrees with it except for games of astronomically many questions, where rounding could move a tier boundary.
- `Streaming.PlayTurn`: models the parts delivered by one `receive()` iteration. Whether the later messages of a model turn are lost after a raising part, or come back from the next `receive()` call, depends on the session library, which is not part of this model.
- `AudioShape.TargetLength`: exact integer division. Python's `int(len * to / from)` goes through a float, which agrees for any realistic buffer length.
- Python's `upper()` and `lower()` are modelled on ASCII letters only. No non-ASCII character upper-cases into the letters of CORRECT, but multi-character case mappings are not represented.
- `audio_to_wav_bytes`, `transcribe_audio` and all printing and `input()` are I/O. A transcript or typed line is an input string.
- Reading `.env`: the file's lines are given as a list, including their line endings. `None` stands for a missing file.
- The `os.getenv("GEMINI_API_KEY")` check in the `main()` of quiz_game.py, quiz_voice.py and main.py is an early return on a missing key. Only quiz_simple.py's lookup is modelled.
- `start_reachy` and `stop_reachy` of quiz_voice.py: device I/O, of the same shape as `Lifecycle.Stop`.
- Dtype checks and arrays of three or more dimensions, which the device does not produce.
