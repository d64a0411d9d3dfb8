# RedditVideoMakerBot narration core, in Dafny

This project models three parts of RedditVideoMakerBot, which turns a Reddit
thread into a narrated video. Contracts and lemmas state what each part
promises.

- **The narration engine** (`TTSEngine` in TTS/engine_wrapper.py). It speaks
  the title, then the post text in story mode, then the comments in order.
  It keeps a running spoken `length` and stops once that length has passed
  `max_length`. A comment whose raw body is longer than the backend's
  `max_chars` is cut into chunks by a regular expression. The chunks are
  spoken as numbered parts and then combined. A side counter
  (`racked_up_split_length`) lets a failed split take its parts' duration
  back out of the total.
- **The video plan** (`make_final_video` and `name_normalize` in
  video_creation/final_video.py). This covers the list of audio clips, the
  list of screenshots, the running-total timeline that decides when each
  screenshot is shown, the thread-id sanitiser, and the file name built
  from the title.
- **Choosing a thread** (`get_subreddit_undone` and `already_done` in
  utils/subreddit.py). This is a first-match filter over a listing. When
  nothing in a listing qualifies, the next "top" listing is fetched under
  the next time filter.

Files:

| file | module | contents |
|---|---|---|
| text.dfy | `Results`, `Text` | `Option`/`Result`; the character classes; `str.strip()`, `str(n)`, character filtering |
| durations.dfy | `Durations` | durations as exact non-negative reals; sums and prefix sums |
| tts_engine.dfy | `TtsEngine` | the engine state, `call_tts`, and the part loop and rollback of `split_post` |
| chunker.dfy | `Chunker` | the splitting regex `" *(((.\|\n){0,N})(\.\|.$))"` under `re.finditer`, in Python's backtracking order |
| narration.dfy | `Narration` | `run`: the head, the comment loop and its stop rule |
| sanitize.dfy | `Sanitize` | the id filter `[^\w\s-]`, `name_normalize` without translation, the output file name |
| final_video.dfy | `FinalVideo` | the audio and image lists, the overlay timeline |
| subreddit.dfy | `Subreddit` | `already_done`, the submission filter, the time-filter retries |

How outside effects are represented:

- **Speech and duration probing.** Speech synthesis (`tts_module.run`) and
  the duration probe (`AudioFileClip(...).duration`) are one collaborator,
  `synth(key, text)`. It returns the clip's duration, or `None` when the
  clip cannot be opened, which is the `except:` branch of `call_tts`.
- **`process_text`.** This is an opaque `process` function.
- **The output directory and the calls.** The engine records the keys of
  the usable clip files in the output directory, those whose duration could
  be probed (`files`), and every `call_tts` made (`calls`). Claims about which clips exist, and which calls were made, are
  stated over these two fields.
- **Listings and probes in the other parts.** `subreddit.top` is a
  parameter `top: Query -> seq<Submission>`. The list of finished videos is
  a parameter. The MP3 length probe of `make_final_video` is a parameter
  `probe`. It returns `None` for a clip that is missing or cannot be read,
  where `MP3(i)` raises and the video is not made.

Behaviour as the code has it:

- `run` checks the budget before each comment, one comment late. When the
  budget is exceeded before comment `m`, it subtracts the last clip's
  length and returns `m - 1`. With a 2-second title, three 3-second
  comments and a 7-second budget, it returns 5 seconds and index 1
  (`Narration.BudgetExample`). When the title alone exceeds the budget and
  there is at least one comment, it returns -1. With no comments the loop
  never runs and no index is returned. For a split comment, the last clip is only its final part
  (`Narration.EvictsOnlyLastPart`).
- A comment longer than `max_chars` whose chunks are all blank once
  processed gives `split_post` no parts. It resets the side counter and
  then concatenates an empty list of clips, which raises. The exception
  escapes `run`. The model marks the engine `raised`, writes no clip and
  does nothing more (`Narration.StepRaises`). A run that stops at the
  budget never raised (`Narration.StoppedRunDoesNotRaise`). One that
  completes raised exactly when such a comment occurred
  (`Narration.CompletedRunRaises`).
- The side counter is not reset after a failed split. A later failed split
  subtracts the stale amount again (`TtsEngine.StaleCounterRefundsTwice`).
- The chunking regex never yields a chunk longer than `max_chars + 1`
  characters (`Chunker.ChunkBounds`). Text that has no terminator within
  reach is dropped and never spoken (`Chunker.DropsUnterminatedText`).
- A comment that `run` keeps can still lack a clip: its direct `call_tts`
  failed, or its split failed and no combined clip was written. The video
  plan then fails when it probes that clip (`FinalVideo.Plan`).
- The character classes `[w,W]` and `[o,O,0]` of `name_normalize` contain
  the comma (`Sanitize.CommaIsReadAsWithout`).
- The statement `name[:30]` discards its result, so `name_normalize` never
  truncates.
- The title reaches `name_normalize` already filtered to word characters,
  whitespace and `-`. None of its rewrites can fire, so the file name is
  the filtered title cut to 251 characters (`Sanitize.FilenameIsSanitisedTitle`).
- The retry index is `times_checked + 1`, so the first retry already skips
  "day". The limit `index + 1 * 50` is `index + 50`. Index 6 is out of
  range and raises (`Subreddit.NextQuery`, `Subreddit.QueriesFromStart`).

## Model

| member | source | states |
|---|---|---|
| TtsEngine.NewEngine | TTS/engine_wrapper.py:33-48 | A new engine has spoken nothing: length 0, side counter 0, no calls, nothing raised, and the last clip length as given. |
| TtsEngine.CallTts | TTS/engine_wrapper.py:121-136 | Returns True exactly when the clip can be probed. On success the length grows by the clip's duration, the last clip length becomes that duration, the side counter grows by it only for a split part, and the clip file appears. On failure nothing but the call log changes. |
| TtsEngine.SpeakableIsNonBlankChunks | TTS/engine_wrapper.py:93-98 | The texts `split_post` speaks are exactly the processed chunks that are neither empty nor whitespace only. |
| TtsEngine.SpeakParts | TTS/engine_wrapper.py:93-105 | Reference loop over the non-blank texts: it succeeds exactly when every text got a part, and it never makes more parts than texts. |
| TtsEngine.SplitLoopIsSpeakParts | TTS/engine_wrapper.py:92-100 | Skipping blank chunks while bumping `offset` gives the same outcome as dropping the blanks first and numbering the rest consecutively. |
| TtsEngine.SpeakPartsNumbering | TTS/engine_wrapper.py:92-100 | Part `j` is the file `idx-(base+j).part`, with no gaps, and every part spoken was synthesized and probed. |
| TtsEngine.SpeakPartsStop | TTS/engine_wrapper.py:100-104 | The loop stops exactly at the first part that cannot be probed. |
| TtsEngine.SpeakPartsAccounting | TTS/engine_wrapper.py:100-105 | The length and the side counter each grow by the sum of the spoken parts' durations; the last clip length is the final part's. |
| TtsEngine.SpeakPartsFiles | TTS/engine_wrapper.py:100-105 | The files present afterwards are the earlier files plus the parts spoken. |
| TtsEngine.SpeakPartsCalls | TTS/engine_wrapper.py:93-100 | The calls made are the parts in order, up to and including the one that failed. |
| TtsEngine.PartCallsAt | TTS/engine_wrapper.py:100 | The `j`-th call made for the parts goes to part `base + j` with the `j`-th text. |
| TtsEngine.PartKeyIsNotClipKey | TTS/engine_wrapper.py:79-100 | A part key `idx-j.part` is never the key `str(i)` of a whole comment. |
| TtsEngine.PartKeyIsCommentKey | TTS/engine_wrapper.py:100 | Part keys start with a digit, so they can never be "title" or "posttext". |
| TtsEngine.PartsArePartKeys | TTS/engine_wrapper.py:92-105 | The parts collected are exactly `idx-0.part … idx-(k-1).part`; the combined clip `idx` is not among them. |
| TtsEngine.CombinedFiles | TTS/engine_wrapper.py:105-114 | After every part was spoken: with at least one part, the combined clip is present, every part file is gone and every other file is as it was; with no parts the concatenation raises and no file changes. |
| TtsEngine.SplitCutsSuccess | TTS/engine_wrapper.py:92-114 | For any chunking, when every part is spoken: the length grows by the sum of the part durations, the side counter is 0 and the last clip is the final part; the combined clip replaces the parts, except that with no speakable chunk the engine has raised and no clip is written. |
| TtsEngine.SplitCutsFailure | TTS/engine_wrapper.py:92-104 | For any chunking, when a part fails: the length drops by the side counter held on entry, the counter keeps the spoken parts, nothing raises, and the part files stay while no combined clip is written. |
| TtsEngine.SplitPostSuccess | TTS/engine_wrapper.py:84-114 | The same success accounting for `split_post` on a raw comment body, raising exactly when no chunk is speakable. |
| TtsEngine.SplitPostFailure | TTS/engine_wrapper.py:84-104 | The same failure accounting for `split_post` on a raw comment body; the counter is not reset. |
| TtsEngine.Combine | TTS/engine_wrapper.py:105-114 | Resetting the counter, then concatenating and deleting the parts; stated by TtsEngine.CombinedFiles. |
| TtsEngine.SplitCuts | TTS/engine_wrapper.py:92-114 | `split_post` after chunking; stated by TtsEngine.SplitCutsSuccess, TtsEngine.SplitCutsFailure and TtsEngine.SplitCutsCalls. |
| TtsEngine.SplitPost | TTS/engine_wrapper.py:84-114 | `split_post`; stated by TtsEngine.SplitPostSuccess, TtsEngine.SplitPostFailure and TtsEngine.SplitPostCalls. |
| TtsEngine.SplitLoop | TTS/engine_wrapper.py:92-104 | The chunk loop of `split_post`; equal to the reference TtsEngine.SpeakParts by TtsEngine.SplitLoopIsSpeakParts. |
| TtsEngine.SplitCutsCalls | TTS/engine_wrapper.py:92-100 | For any chunking, `call_tts` is called only for the parts, in order. |
| TtsEngine.SplitPostCalls | TTS/engine_wrapper.py:84-100 | `split_post` calls `call_tts` once per non-blank chunk on parts `0, 1, …`, up to and including the first failure, and never for the whole comment. |
| TtsEngine.SplitPostFailureRestoresLength | TTS/engine_wrapper.py:100-104 | With the side counter at 0 on entry, a failed split leaves the length exactly where it was. |
| TtsEngine.StaleCounterRefundsTwice | TTS/engine_wrapper.py:102-106 | Two failed splits in a row from a clean counter end below the start length by the first split's spoken parts, because the counter is not reset. |
| Chunker.LeadingSpaces | TTS/engine_wrapper.py:89 | The greedy ` *` takes every consecutive space and stops at the first non-space. |
| Chunker.LastTerminator | TTS/engine_wrapper.py:89 | What it finds is a terminator (`.` or the final character) within the window. |
| Chunker.LastTerminatorIsLast | TTS/engine_wrapper.py:89 | It finds the last terminator in the window, and finds none only when the window has none. |
| Chunker.TryFrom | TTS/engine_wrapper.py:89 | A match found at `p` is spaces, at most `max_chars` characters, then a terminator. |
| Chunker.TryFromIsGreedy | TTS/engine_wrapper.py:89 | The match keeps as many spaces as any match can, and ends on the last terminator in reach. |
| Chunker.TryFromFailsOnlyWithoutTerminator | TTS/engine_wrapper.py:89 | No match at `p` only when no number of leading spaces leaves a terminator in reach. |
| Chunker.MatchAt | TTS/engine_wrapper.py:89 | A match tried at `p` starts at `p`, is well shaped, and uses no more spaces than there are. |
| Chunker.Search | TTS/engine_wrapper.py:88-89 | A search from `p` finds a match that starts at or after `p`. |
| Chunker.SearchIsLeftmost | TTS/engine_wrapper.py:88-89 | The search returns the match at the first position where there is one; no match starts at a position it passed. |
| Chunker.FindAll | TTS/engine_wrapper.py:86-91 | The matches come in order and never overlap. |
| Chunker.FindAllMatches | TTS/engine_wrapper.py:86-91 | Every reported match is the pattern's match at its start: at most `max_chars` characters after the spaces, ending in a terminator. |
| Chunker.FindAllWellShaped | TTS/engine_wrapper.py:86-91 | Every reported match is spaces, at most `max_chars` characters, then a terminator. |
| Chunker.FindAllSkipsOnlyNonMatches | TTS/engine_wrapper.py:86-91 | No match can start in any gap the scan skipped. |
| Chunker.ChunksFromAreMatches | TTS/engine_wrapper.py:86-91 | The chunks are the matches, in order, each stripped. |
| Chunker.Chunks | TTS/engine_wrapper.py:86-91 | `split_text`; stated by Chunker.ChunksFromAreMatches and Chunker.ChunkBounds. |
| Chunker.StrippedMatchShape | TTS/engine_wrapper.py:87-89 | A stripped match is at most `max_chars + 1` long, with no whitespace at either end. |
| Chunker.ChunkBounds | TTS/engine_wrapper.py:86-91 | Every chunk is at most `max_chars + 1` long, with no whitespace at either end. |
| Chunker.DropsUnterminatedText | TTS/engine_wrapper.py:86-91 | With `max_chars` 1, "abc" yields only "bc": text with no terminator in reach is lost. |
| Text.StripSpec | TTS/engine_wrapper.py:87 | `strip()` removes exactly the whitespace at both ends: a slice with only blanks around it, without whitespace at its ends; it is empty exactly when the text is blank. |
| Text.Strip | TTS/engine_wrapper.py:87 | `str.strip()` is never longer than its input; what it removes is stated by Text.StripSpec. |
| Text.StripKeepsTrimmed | TTS/engine_wrapper.py:87 | A text without whitespace at either end is its own strip. |
| Text.NatToStringDigits | TTS/engine_wrapper.py:79 | `str(n)` is all digits and ends with the last digit of `n`. |
| Text.NatToString | TTS/engine_wrapper.py:79 | `str(n)` is never empty; its digits are stated by Text.NatToStringDigits and Text.NatToStringInjective. |
| Text.NatToStringInjective | TTS/engine_wrapper.py:79 | Distinct indices give distinct keys. |
| Narration.LoopStopsAt | TTS/engine_wrapper.py:67-73 | When the budget is first exceeded before comment `m`, the loop returns the state after comments `0..m-1`, minus the last clip, with index `m - 1`. |
| Narration.LoopNeverStops | TTS/engine_wrapper.py:67-82 | When the budget is never found exceeded, every comment is spoken and the last index (or none) is returned. |
| Narration.RunStopsAt | TTS/engine_wrapper.py:50-82 | `run` after its head: comments `0..m-1` spoken, the last clip taken back, `m - 1` returned (possibly -1). |
| Narration.RunCompletes | TTS/engine_wrapper.py:50-82 | `run` speaks every comment and returns the last index, or none for no comments, even if the final comment passes the budget. |
| Narration.StopsOrCompletes | TTS/engine_wrapper.py:68-73 | One of the two cases always applies. |
| Narration.FirstOver | TTS/engine_wrapper.py:70 | Any comment before which the budget is exceeded has a first such comment at or before it. |
| Narration.EvictsDirectComment | TTS/engine_wrapper.py:70-79 | When the comment before the stop was spoken whole and succeeded, the whole comment is taken back. |
| Narration.EvictsOnlyLastPart | TTS/engine_wrapper.py:70-77 | When that comment was split, only its final part is taken back; the earlier parts stay in the length. |
| Narration.StepKeepsRackedNonNegative | TTS/engine_wrapper.py:100-106 | Speaking a comment never makes the side counter negative. |
| Narration.StepChangesLengthOnlyOn | TTS/engine_wrapper.py:74-79 | A comment lowers the length only through a failed split, and raises it only when its clip, or every one of its parts, was spoken. |
| Narration.ProcessedKeepsRacked | TTS/engine_wrapper.py:68-79 | Over the whole loop the side counter stays non-negative. |
| Narration.Start | TTS/engine_wrapper.py:52-65 | The head of `run` leaves the side counter alone, raises nothing, and never lowers the length; what it calls is stated by Narration.RunHead. |
| Narration.StopRaisesLength | TTS/engine_wrapper.py:68-73 | The comment just before a stop raised the length. |
| Narration.StopFollowsSuccess | TTS/engine_wrapper.py:70-104 | The stop only fires right after a comment that was spoken successfully: its clip probed, or all its parts. |
| Narration.ClipKeyIsCommentKey | TTS/engine_wrapper.py:79 | A comment's clip key is a comment key. |
| Narration.StepCalls | TTS/engine_wrapper.py:74-79 | From a state that has not raised, a comment no longer than `max_chars` makes exactly one call, to `str(idx)`; a longer one calls its parts in order. |
| Narration.SplitDecision | TTS/engine_wrapper.py:74-79 | A comment's own clip is among its calls exactly when its raw body is no longer than `max_chars` and no exception has escaped before it. |
| Narration.StepExtends | TTS/engine_wrapper.py:74-79 | Speaking a comment only appends calls for comment keys, and no file other than a comment key comes or goes. |
| Narration.LoopExtends | TTS/engine_wrapper.py:67-80 | The comment loop preserves that for any speaker that does. |
| Narration.RunHead | TTS/engine_wrapper.py:52-65 | The title is always the first call; "posttext" is called exactly when the processed post is non-empty in story mode; a stale "posttext" clip survives only when made afresh. |
| Narration.CommentLoop | TTS/engine_wrapper.py:67-82 | The index the loop returns lies between one below the comment it started at and the last comment, so -1 when a loop started at 0 stops before the first; there is none exactly when there are no comments. The whole result is stated by Narration.LoopStopsAt and Narration.LoopNeverStops. |
| Narration.Run | TTS/engine_wrapper.py:50-82 | `run` returns -1 or the index of a comment, and no index exactly when there are no comments; its whole result is stated by Narration.RunStopsAt and Narration.RunCompletes, and when it raises by Narration.StoppedRunDoesNotRaise and Narration.CompletedRunRaises. |
| Narration.StepRaises | TTS/engine_wrapper.py:74-79 | Speaking a comment raises exactly when its raw body is longer than `max_chars` and every chunk is blank once processed; the length does not change then, and a raised engine is left alone. |
| Narration.ProcessedRaised | TTS/engine_wrapper.py:67-79 | For a speaker that raises exactly on some comments and then does nothing more, the engine after comments `0..k-1` has raised exactly when one of them was such a comment (for `run`, one with nothing to speak). |
| Narration.RaisedKeepsLength | TTS/engine_wrapper.py:67-79 | For such a speaker, a raised state has the length of some earlier state, so the budget check cannot newly fire after a raise. |
| Narration.StoppedRunDoesNotRaise | TTS/engine_wrapper.py:67-82 | A run that stops at the budget has not raised, and no comment before the stop had nothing to speak. |
| Narration.CompletedRunRaises | TTS/engine_wrapper.py:67-82 | A run that never stops raises exactly when some comment has nothing to speak. |
| Narration.Step | TTS/engine_wrapper.py:74-79 | One comment spoken whole or split; its contract is stated by Narration.StepCalls, Narration.StepRaises, Narration.StepChangesLengthOnlyOn and Narration.StepExtends. |
| Narration.ExampleSteps | TTS/engine_wrapper.py:62-79 | Worked example: the length after the title and each comment is 2, 5 and 8 seconds. |
| Narration.BudgetExample | TTS/engine_wrapper.py:67-82 | Worked example: a 7-second budget returns 5 seconds and index 1. |
| Sanitize.IdFilter | video_creation/final_video.py:78 | Keeps exactly the word characters, whitespace and `-` of the id, and never lengthens it. |
| Sanitize.IdFilterKeepsOrder | video_creation/final_video.py:78 | The filter works character by character: the result for a concatenation is the concatenation of the results. |
| Sanitize.IdFilterIdempotent | video_creation/final_video.py:78 | Filtering an id twice gives what filtering once gives. |
| Sanitize.IdFilterKeepsCleanIds | video_creation/final_video.py:78 | An id made only of kept characters is unchanged. |
| Sanitize.RunOf | video_creation/final_video.py:43-44 | The greedy `\d+`/`\w+` run takes every character of its class and stops at the first that is not. |
| Sanitize.MatchRule | video_creation/final_video.py:41-44 | A match of a rewrite is never empty and never runs past the text. |
| Sanitize.GroupsAroundShape | video_creation/final_video.py:43-44 | A two-group match spans a slash; every character of its replacement is of the groups' class (digits, or word characters) or of the template's word: the slash and the `\s?` whitespace around it are consumed, and only the template's spaces remain. |
| Sanitize.MatchRuleShape | video_creation/final_video.py:41-44 | Every rewrite's match spans a slash and adds only template characters. |
| Sanitize.NoSlashNoMatch | video_creation/final_video.py:41-44 | No rewrite matches where no slash follows. |
| Sanitize.ReplaceWithoutHits | video_creation/final_video.py:41-44 | Where nothing matches, `re.sub` copies the text unchanged. |
| Sanitize.SubWithoutSlash | video_creation/final_video.py:41-44 | Each rewrite leaves a text without slashes unchanged. |
| Sanitize.Sub | video_creation/final_video.py:41-44 | One `re.sub`, leftmost and non-overlapping; stated by Sanitize.SubWithoutSlash and Sanitize.SubKeepsAllowed. |
| Sanitize.Rewrite | video_creation/final_video.py:41-44 | The four rewrites in source order; stated by Sanitize.NameNormalizeClean and Sanitize.LaterRulesKeep. |
| Sanitize.ReplaceKeepsAllowed | video_creation/final_video.py:40-44 | Replacing matches whose output comes from the text or the template keeps the text free of forbidden characters. |
| Sanitize.SubKeepsAllowed | video_creation/final_video.py:40-44 | No rewrite brings back a character the first step removed. |
| Sanitize.NameNormalizeClean | video_creation/final_video.py:40-44 | If the text has no forbidden character, neither has the text after the four rewrites. |
| Sanitize.NameNormalize | video_creation/final_video.py:39-57 | The result has none of `?\"%*:\|<>` and no `/`. |
| Sanitize.LaterRulesKeep | video_creation/final_video.py:42-44 | The last three rewrites leave a slash-free text alone. |
| Sanitize.NameNormalizeKeepsPlainNames | video_creation/final_video.py:39-57 | A name with no slash and no forbidden character comes back unchanged, at any length. |
| Sanitize.NameNormalizeIdempotent | video_creation/final_video.py:39-57 | Normalising twice gives what normalising once gives. |
| Sanitize.WithoutExample | video_creation/final_video.py:41 | "a w/o b" becomes "a without b". |
| Sanitize.CommaIsReadAsWithout | video_creation/final_video.py:41 | Because both classes contain the comma, " ,/," anywhere in a text is a four-character match replaced by " without". |
| Sanitize.NumberOfExample | video_creation/final_video.py:43 | "1/2" becomes "1 of 2". |
| Sanitize.Take | video_creation/final_video.py:190 | `s[:n]` is the prefix of `s` of length `min(n, len(s))`. |
| Sanitize.Filename | video_creation/final_video.py:189-190 | The file name is at most 255 characters long and ends in ".mp4". |
| Sanitize.FilenameIsSanitisedTitle | video_creation/final_video.py:189-190 | The file name is the filtered title cut to 251 characters, plus ".mp4". |
| FinalVideo.AudioClips | video_creation/final_video.py:94-95 | `n + 1` clips: the title's, then the clips of comments `0..n-1` in order. |
| FinalVideo.ImageClips | video_creation/final_video.py:99-109 | As many screenshots as clips: the title's, then `comment_0 … comment_{n-1}`, aligned with the clips position by position. |
| FinalVideo.AudioOfInjective | video_creation/final_video.py:94-95 | Different items have different audio files. |
| FinalVideo.AudioClipsDistinct | video_creation/final_video.py:94-95 | No audio file appears twice in the list. |
| FinalVideo.ProbeAll | video_creation/final_video.py:111-114 | Fails exactly when some clip cannot be probed; otherwise one probed length per clip, in list order. |
| FinalVideo.Timeline | video_creation/final_video.py:118-131 | Overlay `k` shows screenshot `k` with clip `k` from the sum of the lengths before `k` to that sum plus length `k`; the final `now` is the sum of all lengths. |
| FinalVideo.TimelineStartsAtZero | video_creation/final_video.py:118 | The first window opens at 0. |
| FinalVideo.WindowLength | video_creation/final_video.py:122 | A window lasts exactly as long as its clip. |
| FinalVideo.WindowsInOrder | video_creation/final_video.py:122-131 | Later windows never start before earlier ones end. |
| FinalVideo.WindowsBackToBack | video_creation/final_video.py:118-131 | Windows start at 0, last as long as their clips, and each starts where the previous one ends. |
| FinalVideo.Assemble | video_creation/final_video.py:111-131 | For any aligned screenshot and clip lists: fails exactly when some clip cannot be probed; otherwise overlay `k` shows screenshot `k` with clip `k` for that clip's probed length, back to back from 0, and the final `now` (the sum of the probed lengths) is the last window's end. |
| FinalVideo.Plan | video_creation/final_video.py:78-131 | End to end: fails exactly when some clip of the audio list cannot be probed; otherwise each item's screenshot is shown with its own clip, for that clip's probed length, back to back from 0, and the sum of the probed lengths is the last window's end. |
| Subreddit.AlreadyDone | utils/subreddit.py:65-79 | True exactly when some finished video has the submission's id. |
| Subreddit.Screen | utils/subreddit.py:24-42 | A submission is taken exactly when it is not done, not NSFW, not pinned, and has more comments than the minimum; NSFW is never taken; exactly the minimum is skipped. |
| Subreddit.FirstChosenFrom | utils/subreddit.py:24-42 | Searching from a position finds the first taken submission at or after it, or reports that none is. |
| Subreddit.FirstChosen | utils/subreddit.py:24-42 | A listing yields its first taken submission in list order, or none when every one is skipped. |
| Subreddit.FirstChosenUnique | utils/subreddit.py:24-42 | A taken submission with none taken before it is the one yielded. |
| Subreddit.FirstChosenAppend | utils/subreddit.py:24-62 | Two listings searched one after the other yield the first's choice, or else the second's. |
| Subreddit.NextQuery | utils/subreddit.py:44-58 | The retry after `t` fruitless listings uses filter index `t + 1` (never "day") and limit `t + 51`; index 6 raises. |
| Subreddit.Queries | utils/subreddit.py:44-62 | The retries still to come are the next queries in order, until the index runs out. |
| Subreddit.QueriesFromStart | utils/subreddit.py:44-62 | From the first call, the retries are "hour" to "all" with limits 51 to 55. |
| Subreddit.GetSubredditUndone | utils/subreddit.py:8-62 | A returned submission always passes the filter. |
| Subreddit.GetSubredditUndoneIsFirstOverall | utils/subreddit.py:8-62 | The search returns the first qualifying submission across all the listings it visits, and fails exactly when none qualifies. |
| Subreddit.ListingExample | utils/subreddit.py:24-42 | Worked example: the done, NSFW, pinned and at-minimum posts are skipped, and the fifth is taken. |

## Left out

- Speech synthesis, audio probing, and moviepy/ffmpeg concatenation and rendering are not modelled. They are the `synth` and `probe` parameters. An exception raised by `tts_module.run` itself, outside the `try` of `call_tts`, is not modelled.
- `process_text` and `sanitize_text` are an opaque function. Translation, in `process_text` and in the language branch of `name_normalize`, is not modelled.
- Durations are exact non-negative reals. Floating-point rounding of the probed durations and of the running totals is not modelled.
- The combined clip of a split comment is recorded as a file key only. Its audio, the concatenation of the parts, is not modelled. That concatenating no parts raises is taken from moviepy 1.x, whose `concatenate_audioclips` builds a `CompositeAudioClip` that takes the `max` of an empty list.
- The engine tracks file keys, not paths. `path + id + "/mp3"` is dropped from the keys; final_video.dfy rebuilds the paths it reads.
- `\w` and `\d` are restricted to ASCII. Python also matches other Unicode letters and digits. `\s` and `strip()` use Python's full whitespace set.
- File-system effects are not modelled: `mkdir`, the `videos.json` file, `os.rename`, `shutil.rmtree`, `save_data`. The list of finished videos is a parameter.
- Reddit access (PRAW `subreddit.top`) is a parameter. Settings loading, console output and progress bars are not modelled.
- The ffmpeg filter graph, scaling, cropping and hardware-acceleration arguments are not modelled. Only the overlay windows, their images and their clips are.
- A clip that `tts_module.run` writes but that cannot be opened stays on disk in the source. The model's `files` holds only the clips whose duration was probed, so such a file has no key.
- In a split, each part is opened a second time, outside the `try`, to collect it for concatenation. The model assumes this second open succeeds whenever the probe in `call_tts` did; a failure there, which would raise out of `split_post`, is not modelled.
- That each clip in ffmpeg's audio concatenation lasts as long as `MP3` probed it is not modelled. The windows are stated against the probed lengths.
- video_creation/screenshot_downloader.py (browser automation) is not part of this model.
- Subreddit.GetSubredditUndone: its contract states only that a returned submission qualifies. Which submission it returns is stated separately, by Subreddit.GetSubredditUndoneIsFirstOverall.
- Sanitize.MatchRule: its contract states only the match's length bounds. The slash and the output characters are stated by Sanitize.MatchRuleShape.
