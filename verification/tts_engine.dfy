/**
  `TTSEngine` of TTS/engine_wrapper.py: the running spoken length, the
  length of the last clip, and the side counter for split comments,
  threaded through `call_tts`, `split_post` and the narration loop of `run`.

  The speech backend and the duration probe are one collaborator, `synth`:
  given a file key (the file name without ".mp3") and a text it returns the
  duration of the clip it wrote, or `None` when the clip cannot be opened.
  `process_text` is the opaque `process`.
 */
module TtsEngine {
  import opened Results
  import opened Text
  import opened Durations
  import Chunker

  const TitleKey: string := "title"
  const PostKey: string := "posttext"

  /** The file key of comment `i`: `f"{idx}"`. */
  function ClipKey(i: nat): string {
    NatToString(i)
  }

  /** The file key of part `j` of comment `idx`: `f"{idx}-{j}.part"`. */
  function PartKey(idx: nat, j: nat): string {
    NatToString(idx) + "-" + NatToString(j) + ".part"
  }

  /** Keys that belong to comments start with a digit; "title" and
      "posttext" do not. */
  predicate IsCommentKey(k: string) {
    |k| > 0 && IsDigit(k[0])
  }

  /** One call of `call_tts`: the file key it synthesizes to and the text. */
  datatype Call = Call(key: string, text: string)

  /** The engine's state: `length`, `last_clip_length` and
      `racked_up_split_length`, plus the usable clip files in the output
      directory (those whose duration could be probed), the log of `call_tts` calls made so far, and whether an
      exception has escaped `split_post` (after which nothing more is done
      and `run` returns nothing). */
  datatype Engine = Engine(
    length: real,
    lastClip: real,
    racked: real,
    files: set<string>,
    calls: seq<Call>,
    raised: bool)

  datatype Comment = Comment(body: string)

  /** The parts of the reddit object the engine reads. */
  datatype Thread = Thread(title: string, post: string, comments: seq<Comment>)

  /** Settings and collaborators: `max_length`, the backend's `max_chars`,
      the `storymode` setting, `process_text`, and synthesis with probing. */
  datatype Env = Env(
    maxLength: int,
    maxChars: nat,
    storyMode: bool,
    process: string -> string,
    synth: (string, string) -> Option<Duration>)

  /** `TTSEngine.__init__`: nothing spoken yet, the side counter at zero,
      `last_clip_length` as given; `existing` is what the output directory
      already holds. */
  function NewEngine(lastClipLength: int, existing: set<string>): (e: Engine)
    ensures e.length == 0.0 && e.racked == 0.0 && e.calls == []
    ensures e.lastClip == lastClipLength as real && e.files == existing
    ensures !e.raised
  {
    Engine(0.0, lastClipLength as real, 0.0, existing, [], false)
  }

  /** The result of `call_tts`: the new state and whether it returned True. */
  datatype Attempt = Attempt(engine: Engine, ok: bool)

  /** `call_tts`: synthesize `text` to `key`, then probe the clip. On success
      the length grows by the clip's duration, which becomes the last clip
      length (and, for a part of a split comment, is added to the side
      counter); on failure nothing but the call log changes. */
  function CallTts(e: Engine, key: string, text: string, split: bool, env: Env): (r: Attempt)
    ensures r.ok <==> env.synth(key, text).Some?
    ensures r.engine.calls == e.calls + [Call(key, text)]
    ensures r.ok ==> var d := env.synth(key, text).value;
      && r.engine.length == e.length + d
      && r.engine.lastClip == d
      && r.engine.racked == (if split then e.racked + d else e.racked)
      && r.engine.files == e.files + {key}
      && r.engine.raised == e.raised
    ensures !r.ok ==> r.engine == e.(calls := e.calls + [Call(key, text)])
  {
    var e' := e.(calls := e.calls + [Call(key, text)]);
    match env.synth(key, text)
    case None => Attempt(e', false)
    case Some(d) =>
      Attempt(e'.(lastClip := d, length := e'.length + d,
                  racked := if split then e'.racked + d else e'.racked,
                  files := e'.files + {key}), true)
  }

  /** How far `split_post` got: the state, whether every part was spoken,
      and the part files collected in `split_files`. */
  datatype SplitOutcome = SplitOutcome(engine: Engine, ok: bool, parts: seq<string>)

  /** The loop of `split_post` from chunk `idy`, with `offset` chunks
      skipped so far: blank chunks only bump `offset`; every other chunk is
      spoken to part `idy - offset`; the first failure ends the loop. */
  function SplitLoop(e: Engine, cuts: seq<string>, idy: nat, offset: nat, idx: nat, env: Env): (r: SplitOutcome)
    requires offset <= idy <= |cuts|
    decreases |cuts| - idy
  {
    if idy == |cuts| then SplitOutcome(e, true, [])
    else
      var text := env.process(cuts[idy]);
      if IsBlank(text) then SplitLoop(e, cuts, idy + 1, offset + 1, idx, env)
      else
        var key := PartKey(idx, idy - offset);
        var a := CallTts(e, key, text, true, env);
        if !a.ok then SplitOutcome(a.engine, false, [])
        else
          var r := SplitLoop(a.engine, cuts, idy + 1, offset, idx, env);
          r.(parts := [key] + r.parts)
  }

  /** The texts that get spoken: each chunk processed, blanks dropped. */
  function Speakable(cuts: seq<string>, process: string -> string): (r: seq<string>)
    ensures |r| <= |cuts|
  {
    if |cuts| == 0 then []
    else
      var text := process(cuts[0]);
      if IsBlank(text) then Speakable(cuts[1..], process)
      else [text] + Speakable(cuts[1..], process)
  }

  /** The texts spoken are exactly the processed chunks that are not blank. */
  lemma {:induction false} SpeakableIsNonBlankChunks(cuts: seq<string>, process: string -> string)
    ensures forall x :: x in Speakable(cuts, process) <==>
      !IsBlank(x) && exists k :: 0 <= k < |cuts| && x == process(cuts[k])
  {
    if |cuts| > 0 {
      SpeakableIsNonBlankChunks(cuts[1..], process);
      forall x | !IsBlank(x) && (exists k :: 0 <= k < |cuts| && x == process(cuts[k]))
        ensures x in Speakable(cuts, process)
      {
        var k :| 0 <= k < |cuts| && x == process(cuts[k]);
        if k > 0 {
          assert x == process(cuts[1..][k - 1]);
        }
      }
      forall x | x in Speakable(cuts, process)
        ensures !IsBlank(x) && exists k :: 0 <= k < |cuts| && x == process(cuts[k])
      {
        if x in Speakable(cuts[1..], process) {
          var k :| 0 <= k < |cuts[1..]| && x == process(cuts[1..][k]);
          assert x == process(cuts[k + 1]);
        }
      }
    }
  }

  function DurationOf(o: Option<Duration>): Duration {
    if o.Some? then o.value else 0.0
  }

  /** The duration probed for part `base` with text `t`. */
  function PartDuration(idx: nat, base: nat, t: string, env: Env): Duration {
    DurationOf(env.synth(PartKey(idx, base), t))
  }

  /** The durations the first `m` parts were probed at. */
  function PartDurations(idx: nat, base: nat, texts: seq<string>, m: nat, env: Env): (ds: seq<Duration>)
    requires m <= |texts|
    ensures |ds| == m
    decreases m
  {
    if m == 0 then []
    else [PartDuration(idx, base, texts[0], env)] + PartDurations(idx, base + 1, texts[1..], m - 1, env)
  }

  /** The first `m` calls made for the parts. */
  function PartCalls(idx: nat, base: nat, texts: seq<string>, m: nat): (cs: seq<Call>)
    requires m <= |texts|
    ensures |cs| == m
    decreases m
  {
    if m == 0 then []
    else [Call(PartKey(idx, base), texts[0])] + PartCalls(idx, base + 1, texts[1..], m - 1)
  }

  /** Reference for the loop of `split_post`: speak `texts` in order to the
      consecutive parts `base, base + 1, ...`, stopping at the first
      failure. */
  function SpeakParts(e: Engine, idx: nat, base: nat, texts: seq<string>, env: Env): (r: SplitOutcome)
    ensures |r.parts| <= |texts|
    ensures r.ok <==> |r.parts| == |texts|
    decreases |texts|
  {
    if |texts| == 0 then SplitOutcome(e, true, [])
    else
      var key := PartKey(idx, base);
      var a := CallTts(e, key, texts[0], true, env);
      if !a.ok then SplitOutcome(a.engine, false, [])
      else
        var rest := SpeakParts(a.engine, idx, base + 1, texts[1..], env);
        rest.(parts := [key] + rest.parts)
  }

  /** The parts spoken are numbered `base, base + 1, ...` without gaps,
      and each one was synthesized and probed. */
  lemma {:induction false} SpeakPartsNumbering(e: Engine, idx: nat, base: nat, texts: seq<string>, env: Env)
    ensures var r := SpeakParts(e, idx, base, texts, env);
      forall j :: 0 <= j < |r.parts| ==>
        r.parts[j] == PartKey(idx, base + j) && env.synth(PartKey(idx, base + j), texts[j]).Some?
    decreases |texts|
  {
    if |texts| > 0 {
      var a := CallTts(e, PartKey(idx, base), texts[0], true, env);
      if a.ok {
        var rest := SpeakParts(a.engine, idx, base + 1, texts[1..], env);
        SpeakPartsNumbering(a.engine, idx, base + 1, texts[1..], env);
        var parts := [PartKey(idx, base)] + rest.parts;
        assert SpeakParts(e, idx, base, texts, env).parts == parts;
        forall j | 0 < j < |parts|
          ensures parts[j] == PartKey(idx, base + j) && env.synth(PartKey(idx, base + j), texts[j]).Some?
        {
          assert parts[j] == rest.parts[j - 1];
          assert texts[1..][j - 1] == texts[j];
        }
      }
    }
  }

  /** The loop stops exactly at the first part that could not be
      synthesized or probed. */
  lemma {:induction false} SpeakPartsStop(e: Engine, idx: nat, base: nat, texts: seq<string>, env: Env)
    ensures var r := SpeakParts(e, idx, base, texts, env);
      !r.ok ==> env.synth(PartKey(idx, base + |r.parts|), texts[|r.parts|]).None?
    decreases |texts|
  {
    if |texts| > 0 {
      var a := CallTts(e, PartKey(idx, base), texts[0], true, env);
      if a.ok {
        var rest := SpeakParts(a.engine, idx, base + 1, texts[1..], env);
        SpeakPartsStop(a.engine, idx, base + 1, texts[1..], env);
        var r := SpeakParts(e, idx, base, texts, env);
        assert r.ok == rest.ok && |r.parts| == |rest.parts| + 1;
        if !r.ok {
          assert texts[1..][|rest.parts|] == texts[|r.parts|];
        }
      }
    }
  }

  /** The length and the side counter grow by exactly the durations of the
      parts spoken, and the last clip length is that of the last one. */
  lemma {:induction false} SpeakPartsAccounting(e: Engine, idx: nat, base: nat, texts: seq<string>, env: Env)
    ensures var r := SpeakParts(e, idx, base, texts, env);
      var ds := PartDurations(idx, base, texts, |r.parts|, env);
      && r.engine.length == e.length + Sum(ds)
      && r.engine.racked == e.racked + Sum(ds)
      && r.engine.lastClip == (if |r.parts| == 0 then e.lastClip else ds[|r.parts| - 1])
      && r.engine.raised == e.raised
    decreases |texts|
  {
    if |texts| > 0 {
      var a := CallTts(e, PartKey(idx, base), texts[0], true, env);
      if a.ok {
        SpeakPartsAccounting(a.engine, idx, base + 1, texts[1..], env);
        var r := SpeakParts(e, idx, base, texts, env);
        var ds := PartDurations(idx, base, texts, |r.parts|, env);
        assert ds[1..] == PartDurations(idx, base + 1, texts[1..], |r.parts| - 1, env);
      }
    }
  }

  /** The files that appear are exactly the part files spoken. */
  lemma {:induction false} SpeakPartsFiles(e: Engine, idx: nat, base: nat, texts: seq<string>, env: Env)
    ensures var r := SpeakParts(e, idx, base, texts, env);
      forall k :: k in r.engine.files <==> k in e.files || k in r.parts
    decreases |texts|
  {
    if |texts| > 0 {
      var a := CallTts(e, PartKey(idx, base), texts[0], true, env);
      if a.ok {
        SpeakPartsFiles(a.engine, idx, base + 1, texts[1..], env);
      }
    }
  }

  /** The calls made are the parts in order, up to and including the one
      that failed, if any. */
  lemma {:induction false} SpeakPartsCalls(e: Engine, idx: nat, base: nat, texts: seq<string>, env: Env)
    ensures var r := SpeakParts(e, idx, base, texts, env);
      r.engine.calls == e.calls + PartCalls(idx, base, texts, if r.ok then |texts| else |r.parts| + 1)
    decreases |texts|
  {
    if |texts| > 0 {
      var a := CallTts(e, PartKey(idx, base), texts[0], true, env);
      if a.ok {
        SpeakPartsCalls(a.engine, idx, base + 1, texts[1..], env);
      }
    }
  }

  /** `split_post` numbers its parts without gaps: skipping blank chunks
      and bumping `offset` is the same as dropping the blanks first and
      numbering the rest consecutively. */
  lemma {:induction false} SplitLoopIsSpeakParts(e: Engine, cuts: seq<string>, idy: nat, offset: nat, idx: nat, env: Env)
    requires offset <= idy <= |cuts|
    ensures SplitLoop(e, cuts, idy, offset, idx, env)
         == SpeakParts(e, idx, idy - offset, Speakable(cuts[idy..], env.process), env)
    decreases |cuts| - idy
  {
    if idy < |cuts| {
      var text := env.process(cuts[idy]);
      assert cuts[idy..][0] == cuts[idy] && cuts[idy..][1..] == cuts[idy + 1..];
      if IsBlank(text) {
        SplitLoopIsSpeakParts(e, cuts, idy + 1, offset + 1, idx, env);
      } else {
        var a := CallTts(e, PartKey(idx, idy - offset), text, true, env);
        if a.ok {
          SplitLoopIsSpeakParts(a.engine, cuts, idy + 1, offset, idx, env);
        }
      }
    }
  }

  /** The end of `split_post` once every part was spoken: the side counter
      is reset, then the parts are concatenated into clip `idx` and deleted.
      moviepy's `concatenate_audioclips` raises on an empty list, so when
      there are no parts the counter is reset but no clip is written and
      the exception escapes. */
  function Combine(e: Engine, parts: seq<string>, idx: nat): Engine {
    var e' := e.(racked := 0.0);
    if |parts| == 0 then e'.(raised := true)
    else e'.(files := (e'.files + {ClipKey(idx)}) - (set k | k in parts))
  }

  /** `split_post` once the raw comment is cut into `cuts`: speak the
      chunks as parts, then either subtract the side counter (some part
      failed; nothing is combined and the counter is left as it is) or
      combine the parts. */
  function SplitCuts(e: Engine, cuts: seq<string>, idx: nat, env: Env): Engine
  {
    var o := SplitLoop(e, cuts, 0, 0, idx, env);
    if !o.ok then
      o.engine.(length := o.engine.length - o.engine.racked)
    else
      Combine(o.engine, o.parts, idx)
  }

  /** `split_post`: cut the raw comment into chunks, then speak them. */
  function SplitPost(e: Engine, text: string, idx: nat, env: Env): Engine
  {
    SplitCuts(e, Chunker.Chunks(text, env.maxChars), idx, env)
  }

  /** The texts `split_post` speaks for a comment body. */
  function SplitTexts(text: string, env: Env): seq<string> {
    Speakable(Chunker.Chunks(text, env.maxChars), env.process)
  }

  /** How the parts of a split comment fare. */
  function SplitParts(e: Engine, text: string, idx: nat, env: Env): SplitOutcome {
    SpeakParts(e, idx, 0, SplitTexts(text, env), env)
  }

  lemma SplitLoopFromStart(e: Engine, cuts: seq<string>, idx: nat, env: Env)
    ensures SplitLoop(e, cuts, 0, 0, idx, env) == SpeakParts(e, idx, 0, Speakable(cuts, env.process), env)
  {
    SplitLoopIsSpeakParts(e, cuts, 0, 0, idx, env);
    assert cuts[0..] == cuts;
  }

  /** A part key is never the key of a whole comment. */
  lemma PartKeyIsNotClipKey(idx: nat, j: nat, i: nat)
    ensures PartKey(idx, j) != ClipKey(i)
  {
    var p := PartKey(idx, j);
    var a := NatToString(idx);
    NatToStringDigits(i);
    assert p[|a|] == '-';
    assert !IsDigit('-');
  }

  /** Part keys are comment keys. */
  lemma PartKeyIsCommentKey(idx: nat, j: nat)
    ensures IsCommentKey(PartKey(idx, j))
  {
    NatToStringDigits(idx);
    assert PartKey(idx, j)[0] == NatToString(idx)[0];
  }

  /** `k` is one of the first `n` part files of comment `idx`. */
  predicate IsPartOf(k: string, idx: nat, n: nat) {
    exists j :: 0 <= j < n && k == PartKey(idx, j)
  }

  lemma PartsArePartKeys(e: Engine, idx: nat, texts: seq<string>, env: Env)
    ensures var o := SpeakParts(e, idx, 0, texts, env);
      && (forall k :: k in o.parts <==> IsPartOf(k, idx, |o.parts|))
      && ClipKey(idx) !in o.parts
  {
    var o := SpeakParts(e, idx, 0, texts, env);
    SpeakPartsNumbering(e, idx, 0, texts, env);
    forall k | IsPartOf(k, idx, |o.parts|) ensures k in o.parts {
      var j :| 0 <= j < |o.parts| && k == PartKey(idx, j);
      assert o.parts[j] == k;
    }
    forall j | 0 <= j < |o.parts| ensures o.parts[j] != ClipKey(idx) {
      PartKeyIsNotClipKey(idx, j, idx);
    }
  }

  /** `SplitCuts` when every part is spoken. */
  lemma SplitCutsSuccess(e: Engine, cuts: seq<string>, idx: nat, env: Env)
    requires SpeakParts(e, idx, 0, Speakable(cuts, env.process), env).ok
    ensures var texts := Speakable(cuts, env.process);
      var ds := PartDurations(idx, 0, texts, |texts|, env);
      var r := SplitCuts(e, cuts, idx, env);
      && r.length == e.length + Sum(ds)
      && r.racked == 0.0
      && r.lastClip == (if |texts| == 0 then e.lastClip else ds[|texts| - 1])
      && r.raised == (e.raised || |texts| == 0)
      && (forall k :: k in r.files <==>
            (|texts| > 0 && k == ClipKey(idx)) || (k in e.files && !IsPartOf(k, idx, |texts|)))
  {
    var texts := Speakable(cuts, env.process);
    var o := SpeakParts(e, idx, 0, texts, env);
    SplitLoopFromStart(e, cuts, idx, env);
    assert SplitCuts(e, cuts, idx, env) == Combine(o.engine, o.parts, idx);
    SpeakPartsAccounting(e, idx, 0, texts, env);
    CombinedFiles(e, idx, texts, env);
  }

  /** After every part was spoken, the combined clip is present, the part
      files are gone, and every other file is as it was; with no parts at
      all the concatenation raises and no file changes. */
  lemma CombinedFiles(e: Engine, idx: nat, texts: seq<string>, env: Env)
    requires SpeakParts(e, idx, 0, texts, env).ok
    ensures var o := SpeakParts(e, idx, 0, texts, env);
      var r := Combine(o.engine, o.parts, idx);
      && r.raised == (o.engine.raised || |texts| == 0)
      && forall k :: k in r.files <==>
           (|texts| > 0 && k == ClipKey(idx)) || (k in e.files && !IsPartOf(k, idx, |texts|))
  {
    var o := SpeakParts(e, idx, 0, texts, env);
    SpeakPartsFiles(e, idx, 0, texts, env);
    PartsArePartKeys(e, idx, texts, env);
  }

  /** `SplitCuts` when a part fails. */
  lemma SplitCutsFailure(e: Engine, cuts: seq<string>, idx: nat, env: Env)
    requires !SpeakParts(e, idx, 0, Speakable(cuts, env.process), env).ok
    ensures var texts := Speakable(cuts, env.process);
      var o := SpeakParts(e, idx, 0, texts, env);
      var ds := PartDurations(idx, 0, texts, |o.parts|, env);
      var r := SplitCuts(e, cuts, idx, env);
      && r.length == e.length - e.racked
      && r.racked == e.racked + Sum(ds)
      && r.raised == e.raised
      && (forall k :: k in r.files <==> k in e.files || IsPartOf(k, idx, |o.parts|))
  {
    var texts := Speakable(cuts, env.process);
    SplitLoopFromStart(e, cuts, idx, env);
    SpeakPartsAccounting(e, idx, 0, texts, env);
    SpeakPartsFiles(e, idx, 0, texts, env);
    PartsArePartKeys(e, idx, texts, env);
  }

  /** When every part of a split comment is spoken, the length grows by the
      sum of the part durations, the side counter ends at zero, the last
      clip length is that of the final part only, and the combined clip
      `idx` replaces the part files. When no chunk is speakable there are
      no parts: the counter is still reset, but the concatenation raises
      and no clip is written. */
  lemma SplitPostSuccess(e: Engine, text: string, idx: nat, env: Env)
    requires SplitParts(e, text, idx, env).ok
    ensures var texts := SplitTexts(text, env);
      var ds := PartDurations(idx, 0, texts, |texts|, env);
      var r := SplitPost(e, text, idx, env);
      && r.length == e.length + Sum(ds)
      && r.racked == 0.0
      && r.lastClip == (if |texts| == 0 then e.lastClip else ds[|texts| - 1])
      && r.raised == (e.raised || |texts| == 0)
      && (forall k :: k in r.files <==>
            (|texts| > 0 && k == ClipKey(idx)) || (k in e.files && !IsPartOf(k, idx, |texts|)))
  {
    SplitCutsSuccess(e, Chunker.Chunks(text, env.maxChars), idx, env);
  }

  /** When a part fails, the length drops by the whole side counter, which
      is NOT reset: it still holds the parts spoken before the failure (and
      whatever an earlier failure left in it). Nothing is combined and
      nothing is deleted: the part files spoken stay behind. */
  lemma SplitPostFailure(e: Engine, text: string, idx: nat, env: Env)
    requires !SplitParts(e, text, idx, env).ok
    ensures var o := SplitParts(e, text, idx, env);
      var ds := PartDurations(idx, 0, SplitTexts(text, env), |o.parts|, env);
      var r := SplitPost(e, text, idx, env);
      && r.length == e.length - e.racked
      && r.racked == e.racked + Sum(ds)
      && r.raised == e.raised
      && (forall k :: k in r.files <==> k in e.files || IsPartOf(k, idx, |o.parts|))
  {
    SplitCutsFailure(e, Chunker.Chunks(text, env.maxChars), idx, env);
  }

  /** The `j`-th call made for the parts goes to part `base + j`. */
  lemma {:induction false} PartCallsAt(idx: nat, base: nat, texts: seq<string>, m: nat, j: nat)
    requires j < m <= |texts|
    ensures PartCalls(idx, base, texts, m)[j] == Call(PartKey(idx, base + j), texts[j])
    decreases m
  {
    if j > 0 {
      PartCallsAt(idx, base + 1, texts[1..], m - 1, j - 1);
    }
  }

  /** `SplitCuts` calls `call_tts` for the parts only. */
  lemma SplitCutsCalls(e: Engine, cuts: seq<string>, idx: nat, env: Env)
    ensures var texts := Speakable(cuts, env.process);
      var o := SpeakParts(e, idx, 0, texts, env);
      SplitCuts(e, cuts, idx, env).calls
        == e.calls + PartCalls(idx, 0, texts, if o.ok then |texts| else |o.parts| + 1)
  {
    SplitLoopFromStart(e, cuts, idx, env);
    SpeakPartsCalls(e, idx, 0, Speakable(cuts, env.process), env);
  }

  /** `split_post` calls `call_tts` once per non-blank chunk, in order, on
      the parts `0, 1, ...` without gaps, up to and including the first
      that fails; it never calls it for the whole comment. */
  lemma SplitPostCalls(e: Engine, text: string, idx: nat, env: Env)
    ensures var texts := SplitTexts(text, env);
      var o := SplitParts(e, text, idx, env);
      SplitPost(e, text, idx, env).calls
        == e.calls + PartCalls(idx, 0, texts, if o.ok then |texts| else |o.parts| + 1)
  {
    SplitCutsCalls(e, Chunker.Chunks(text, env.maxChars), idx, env);
  }

  /** Rollback is exact only from a clean counter: with the side counter at
      zero on entry, a failed split leaves the length where it was. */
  lemma SplitPostFailureRestoresLength(e: Engine, text: string, idx: nat, env: Env)
    requires e.racked == 0.0
    requires !SplitParts(e, text, idx, env).ok
    ensures SplitPost(e, text, idx, env).length == e.length
  {
    SplitPostFailure(e, text, idx, env);
  }

  /** Because the counter is not reset after a failure, a second failed
      split refunds the first one's spoken parts again: the length ends
      below where it started by that amount (and can go negative). */
  lemma StaleCounterRefundsTwice(e: Engine, a: string, ia: nat, b: string, ib: nat, env: Env)
    requires e.racked == 0.0
    requires !SplitParts(e, a, ia, env).ok
    requires !SplitParts(SplitPost(e, a, ia, env), b, ib, env).ok
    ensures var oa := SplitParts(e, a, ia, env);
      SplitPost(SplitPost(e, a, ia, env), b, ib, env).length
        == e.length - Sum(PartDurations(ia, 0, SplitTexts(a, env), |oa.parts|, env))
  {
    SplitPostFailure(e, a, ia, env);
    SplitPostFailure(SplitPost(e, a, ia, env), b, ib, env);
  }
}
