/**
  `TTSEngine.run` of TTS/engine_wrapper.py: speak the title, the post text
  in story mode, then the comments one by one until the spoken length
  passes `max_length`, and report the length and the last comment index
  kept.
 */
module Narration {
  import opened Results
  import opened Text
  import opened Durations
  import opened TtsEngine

  /** One pass of the comment loop without the stop rule: a comment whose
      raw body is longer than `max_chars` is split, any other is spoken
      whole to clip `i`. Once an exception has escaped, nothing more is
      done. */
  function Step(e: Engine, i: nat, c: Comment, env: Env): Engine {
    if e.raised then e
    else if |c.body| > env.maxChars then SplitPost(e, c.body, i, env)
    else CallTts(e, ClipKey(i), env.process(c.body), false, env).engine
  }

  /** How the loop speaks one comment; the loop itself is the same for any. */
  type Speaker = (Engine, nat, Comment) -> Engine

  function Speak(env: Env): Speaker {
    (e: Engine, i: nat, c: Comment) => Step(e, i, c, env)
  }

  /** The state after comments `0 .. k - 1` were all spoken, ignoring the
      budget: the reference the stop rule is measured against. */
  function Processed(speak: Speaker, e: Engine, cs: seq<Comment>, k: nat): Engine
    requires k <= |cs|
  {
    if k == 0 then e else speak(Processed(speak, e, cs, k - 1), k - 1, cs[k - 1])
  }

  /** What `run` returns, with the final state: the engine (whose `length`
      is the first element of the Python tuple) and `idx`. */
  datatype Narrated = Narrated(engine: Engine, last: Option<int>)

  /** The comment loop from comment `i` on: before each comment, if the
      length already exceeds `max_length`, take back the last clip and
      report the previous index; otherwise speak the comment. When the
      loop runs out, `idx` is the last comment's index (`None` if there were
      no comments). */
  function CommentLoop(speak: Speaker, maxLength: int, e: Engine, cs: seq<Comment>, i: nat): (r: Narrated)
    requires i <= |cs|
    ensures r.last.None? <==> |cs| == 0
    ensures r.last.Some? ==> i as int - 1 <= r.last.value < |cs|
    decreases |cs| - i
  {
    if i == |cs| then Narrated(e, if i == 0 then None else Some(i - 1))
    else if e.length > maxLength as real then
      Narrated(e.(length := e.length - e.lastClip), Some(i as int - 1))
    else CommentLoop(speak, maxLength, speak(e, i, cs[i]), cs, i + 1)
  }

  /** Whether `run` speaks the post text. */
  predicate SpeaksPost(t: Thread, env: Env) {
    env.process(t.post) != "" && env.storyMode
  }

  /** The head of `run`: delete a stale "posttext" clip, speak the title,
      and speak the processed post text when it is non-empty in story mode. */
  function Start(e: Engine, t: Thread, env: Env): (r: Engine)
    ensures r.racked == e.racked && r.raised == e.raised
    ensures r.length >= e.length
  {
    var e1 := e.(files := e.files - {PostKey});
    var e2 := CallTts(e1, TitleKey, env.process(t.title), false, env).engine;
    if SpeaksPost(t, env) then CallTts(e2, PostKey, env.process(t.post), false, env).engine
    else e2
  }

  /** `run`: the index it returns is that of a comment, or -1 when the
      budget is exceeded before the first one, and there is none only when
      there are no comments. */
  function Run(e: Engine, t: Thread, env: Env): (r: Narrated)
    ensures r.last.None? <==> |t.comments| == 0
    ensures r.last.Some? ==> -1 <= r.last.value < |t.comments|
  {
    CommentLoop(Speak(env), env.maxLength, Start(e, t, env), t.comments, 0)
  }

  // ---------------------------------------------------------------------
  // The stop rule against the reference fold

  /** The loop first finds the budget exceeded before comment `m`. */
  predicate StopsAt(speak: Speaker, maxLength: int, e: Engine, cs: seq<Comment>, m: nat) {
    && m < |cs|
    && Processed(speak, e, cs, m).length > maxLength as real
    && forall k :: 0 <= k < m ==> Processed(speak, e, cs, k).length <= maxLength as real
  }

  /** The budget is never found exceeded before a comment. */
  predicate NeverStops(speak: Speaker, maxLength: int, e: Engine, cs: seq<Comment>) {
    forall k :: 0 <= k < |cs| ==> Processed(speak, e, cs, k).length <= maxLength as real
  }

  lemma {:induction false} LoopStopsAt(speak: Speaker, maxLength: int, e: Engine, cs: seq<Comment>, i: nat, m: nat)
    requires i <= m < |cs|
    requires Processed(speak, e, cs, m).length > maxLength as real
    requires forall k :: i <= k < m ==> Processed(speak, e, cs, k).length <= maxLength as real
    ensures var p := Processed(speak, e, cs, m);
      CommentLoop(speak, maxLength, Processed(speak, e, cs, i), cs, i)
        == Narrated(p.(length := p.length - p.lastClip), Some(m as int - 1))
    decreases m - i
  {
    if i < m {
      LoopStopsAt(speak, maxLength, e, cs, i + 1, m);
    }
  }

  lemma {:induction false} LoopNeverStops(speak: Speaker, maxLength: int, e: Engine, cs: seq<Comment>, i: nat)
    requires i <= |cs|
    requires forall k :: i <= k < |cs| ==> Processed(speak, e, cs, k).length <= maxLength as real
    ensures CommentLoop(speak, maxLength, Processed(speak, e, cs, i), cs, i)
         == Narrated(Processed(speak, e, cs, |cs|), if |cs| == 0 then None else Some(|cs| - 1))
    decreases |cs| - i
  {
    if i < |cs| {
      LoopNeverStops(speak, maxLength, e, cs, i + 1);
    }
  }

  /** The state after the head of `run` and comments `0 .. k - 1`. */
  function After(e: Engine, t: Thread, env: Env, k: nat): Engine
    requires k <= |t.comments|
  {
    Processed(Speak(env), Start(e, t, env), t.comments, k)
  }

  /** `run` first finds the budget exceeded before comment `m`. */
  predicate RunStopsBefore(e: Engine, t: Thread, env: Env, m: nat) {
    StopsAt(Speak(env), env.maxLength, Start(e, t, env), t.comments, m)
  }

  /** The stop rule: if the budget is first found exceeded before comment
      `m`, `run` has spoken exactly comments `0 .. m - 1`, takes back the
      last clip's duration and returns `m - 1` (which is -1 when the title
      and post text alone exceed the budget). */
  lemma RunStopsAt(e: Engine, t: Thread, env: Env, m: nat)
    requires RunStopsBefore(e, t, env, m)
    ensures var p := After(e, t, env, m);
      Run(e, t, env) == Narrated(p.(length := p.length - p.lastClip), Some(m as int - 1))
  {
    LoopStopsAt(Speak(env), env.maxLength, Start(e, t, env), t.comments, 0, m);
  }

  /** Otherwise every comment is spoken and the last index is returned,
      even when the final comment takes the length past the budget. */
  lemma RunCompletes(e: Engine, t: Thread, env: Env)
    requires NeverStops(Speak(env), env.maxLength, Start(e, t, env), t.comments)
    ensures Run(e, t, env) == Narrated(After(e, t, env, |t.comments|),
                                       if |t.comments| == 0 then None else Some(|t.comments| - 1))
  {
    LoopNeverStops(Speak(env), env.maxLength, Start(e, t, env), t.comments, 0);
  }

  /** One of the two cases always applies. */
  lemma {:induction false} StopsOrCompletes(speak: Speaker, maxLength: int, e: Engine, cs: seq<Comment>)
    ensures NeverStops(speak, maxLength, e, cs) || exists m :: StopsAt(speak, maxLength, e, cs, m)
  {
    if !NeverStops(speak, maxLength, e, cs) {
      var k :| 0 <= k < |cs| && Processed(speak, e, cs, k).length > maxLength as real;
      FirstOver(speak, maxLength, e, cs, k);
    }
  }

  lemma {:induction false} FirstOver(speak: Speaker, maxLength: int, e: Engine, cs: seq<Comment>, k: nat)
    requires k < |cs| && Processed(speak, e, cs, k).length > maxLength as real
    ensures exists m :: StopsAt(speak, maxLength, e, cs, m)
    decreases k
  {
    if !StopsAt(speak, maxLength, e, cs, k) {
      var k' :| 0 <= k' < k && Processed(speak, e, cs, k').length > maxLength as real;
      FirstOver(speak, maxLength, e, cs, k');
    }
  }

  // ---------------------------------------------------------------------
  // What the stop rule takes back

  /** When the comment before the stop was spoken whole and succeeded, the
      whole comment is taken back: the length is what it was before it. */
  lemma EvictsDirectComment(e: Engine, t: Thread, env: Env, m: nat)
    requires RunStopsBefore(e, t, env, m) && m >= 1
    requires |t.comments[m - 1].body| <= env.maxChars
    requires env.synth(ClipKey(m - 1), env.process(t.comments[m - 1].body)).Some?
    ensures Run(e, t, env).engine.length == After(e, t, env, m - 1).length
  {
    RunStopsAt(e, t, env, m);
  }

  /** When that comment was split and all its parts were spoken, only its
      final part is taken back: the earlier parts stay in the length. */
  lemma EvictsOnlyLastPart(e: Engine, t: Thread, env: Env, m: nat)
    requires RunStopsBefore(e, t, env, m) && m >= 1
    requires |t.comments[m - 1].body| > env.maxChars
    requires var p := After(e, t, env, m - 1);
      SplitParts(p, t.comments[m - 1].body, m - 1, env).ok
    requires |SplitTexts(t.comments[m - 1].body, env)| > 0
    ensures var p := After(e, t, env, m - 1);
      var texts := SplitTexts(t.comments[m - 1].body, env);
      var ds := PartDurations(m - 1, 0, texts, |texts|, env);
      Run(e, t, env).engine.length == p.length + Sum(ds) - ds[|texts| - 1]
  {
    var p := After(e, t, env, m - 1);
    RunStopsAt(e, t, env, m);
    SplitPostSuccess(p, t.comments[m - 1].body, m - 1, env);
  }

  /** The side counter never goes negative: it starts at zero, only grows
      by durations, and is only ever reset to zero. */
  lemma StepKeepsRackedNonNegative(e: Engine, i: nat, c: Comment, env: Env)
    requires e.racked >= 0.0
    ensures Step(e, i, c, env).racked >= 0.0
  {
    if |c.body| > env.maxChars {
      var o := SplitParts(e, c.body, i, env);
      if o.ok {
        SplitPostSuccess(e, c.body, i, env);
      } else {
        SplitPostFailure(e, c.body, i, env);
        SumNonNegative(PartDurations(i, 0, SplitTexts(c.body, env), |o.parts|, env));
      }
    }
  }

  /** Speaking a comment lowers the length only when a split fails, and
      raises it only when the comment was spoken successfully: its clip
      probed, or every one of its parts. */
  lemma StepChangesLengthOnlyOn(e: Engine, i: nat, c: Comment, env: Env)
    requires e.racked >= 0.0
    ensures var r := Step(e, i, c, env);
      r.length < e.length ==> |c.body| > env.maxChars && !SplitParts(e, c.body, i, env).ok
    ensures var r := Step(e, i, c, env);
      r.length > e.length ==>
        if |c.body| > env.maxChars then SplitParts(e, c.body, i, env).ok
        else env.synth(ClipKey(i), env.process(c.body)).Some?
  {
    if |c.body| > env.maxChars {
      var o := SplitParts(e, c.body, i, env);
      var ds := PartDurations(i, 0, SplitTexts(c.body, env), |o.parts|, env);
      SumNonNegative(ds);
      if o.ok {
        SplitPostSuccess(e, c.body, i, env);
      } else {
        SplitPostFailure(e, c.body, i, env);
      }
    }
  }

  /** A speaker that never makes the side counter negative. */
  ghost predicate KeepsRacked(speak: Speaker) {
    forall e': Engine, i: nat, c: Comment :: e'.racked >= 0.0 ==> speak(e', i, c).racked >= 0.0
  }

  /** Any speaker that keeps the side counter non-negative keeps it so over
      the whole loop. */
  lemma {:induction false} ProcessedKeepsRacked(speak: Speaker, e: Engine, cs: seq<Comment>, k: nat)
    requires k <= |cs| && e.racked >= 0.0
    requires KeepsRacked(speak)
    ensures Processed(speak, e, cs, k).racked >= 0.0
  {
    if k > 0 {
      ProcessedKeepsRacked(speak, e, cs, k - 1);
    }
  }

  lemma SpeakKeepsRacked(env: Env)
    ensures KeepsRacked(Speak(env))
  {
    forall e': Engine, i: nat, c: Comment | e'.racked >= 0.0
      ensures Speak(env)(e', i, c).racked >= 0.0
    {
      StepKeepsRackedNonNegative(e', i, c, env);
    }
  }

  /** The step right before a stop raised the length above the budget,
      from a state whose side counter is non-negative. */
  lemma StopRaisesLength(speak: Speaker, maxLength: int, e: Engine, cs: seq<Comment>, m: nat)
    requires StopsAt(speak, maxLength, e, cs, m) && m >= 1
    requires KeepsRacked(speak) && e.racked >= 0.0
    ensures var p := Processed(speak, e, cs, m - 1);
      p.racked >= 0.0 && speak(p, m - 1, cs[m - 1]).length > p.length
  {
    assert Processed(speak, e, cs, m - 1).length <= maxLength as real;
    ProcessedKeepsRacked(speak, e, cs, m - 1);
  }

  lemma ProcessedStep(speak: Speaker, e: Engine, cs: seq<Comment>, k: nat)
    requires 0 < k <= |cs|
    ensures Processed(speak, e, cs, k) == speak(Processed(speak, e, cs, k - 1), k - 1, cs[k - 1])
  {
  }

  lemma SpeakIsStep(env: Env, e: Engine, i: nat, c: Comment)
    ensures Speak(env)(e, i, c) == Step(e, i, c, env)
  {
  }

  /** The stop rule only ever fires right after a comment that was spoken
      successfully: a failed clip adds nothing and a failed split only
      takes length away, so the budget would have been found exceeded one
      comment earlier. */
  lemma StopFollowsSuccess(e: Engine, t: Thread, env: Env, m: nat)
    requires e.racked >= 0.0
    requires RunStopsBefore(e, t, env, m) && m >= 1
    ensures var c := t.comments[m - 1];
      var p := After(e, t, env, m - 1);
      && (|c.body| <= env.maxChars ==> env.synth(ClipKey(m - 1), env.process(c.body)).Some?)
      && (|c.body| > env.maxChars ==> SplitParts(p, c.body, m - 1, env).ok)
  {
    var s := Start(e, t, env);
    var cs := t.comments;
    var p := After(e, t, env, m - 1);
    assert p.racked >= 0.0 && Step(p, m - 1, cs[m - 1], env).length > p.length by {
      SpeakKeepsRacked(env);
      StopRaisesLength(Speak(env), env.maxLength, s, cs, m);
      SpeakIsStep(env, p, m - 1, cs[m - 1]);
    }
    StepChangesLengthOnlyOn(p, m - 1, cs[m - 1], env);
  }

  // ---------------------------------------------------------------------
  // A split with nothing to combine

  /** A comment longer than `max_chars` whose chunks are all blank once
      processed: `split_post` speaks no part and concatenates an empty
      list. */
  predicate NothingToSpeak(c: Comment, env: Env) {
    |c.body| > env.maxChars && SplitTexts(c.body, env) == []
  }

  /** Speaking a comment raises exactly when it has nothing to speak, and
      then leaves the length as it was; once raised, the engine is left
      alone. */
  lemma StepRaises(e: Engine, i: nat, c: Comment, env: Env)
    ensures e.raised ==> Step(e, i, c, env) == e
    ensures Step(e, i, c, env).raised <==> e.raised || NothingToSpeak(c, env)
    ensures NothingToSpeak(c, env) ==> Step(e, i, c, env).length == e.length
  {
    if !e.raised && |c.body| > env.maxChars {
      if SplitParts(e, c.body, i, env).ok {
        SplitPostSuccess(e, c.body, i, env);
      } else {
        SplitPostFailure(e, c.body, i, env);
      }
    }
  }

  /** A speaker that leaves a raised engine alone, raises exactly on the
      comments `bad` picks, and leaves the length alone when it does. */
  ghost predicate RaisesOn(speak: Speaker, bad: Comment -> bool) {
    && (forall e': Engine, i: nat, c: Comment :: e'.raised ==> speak(e', i, c) == e')
    && (forall e': Engine, i: nat, c: Comment :: !e'.raised ==> (speak(e', i, c).raised <==> bad(c)))
    && (forall e': Engine, i: nat, c: Comment ::
          !e'.raised && bad(c) ==> speak(e', i, c).length == e'.length)
  }

  lemma SpeakRaisesOn(env: Env)
    ensures RaisesOn(Speak(env), c => NothingToSpeak(c, env))
  {
    forall e': Engine, i: nat, c: Comment
      ensures e'.raised ==> Speak(env)(e', i, c) == e'
      ensures !e'.raised ==> (Speak(env)(e', i, c).raised <==> NothingToSpeak(c, env))
      ensures !e'.raised && NothingToSpeak(c, env) ==> Speak(env)(e', i, c).length == e'.length
    {
      StepRaises(e', i, c, env);
    }
  }

  /** After comments `0 .. k - 1`, the engine has raised exactly when one of
      them was a comment the speaker raises on. */
  lemma {:induction false} ProcessedRaised(speak: Speaker, bad: Comment -> bool, e: Engine, cs: seq<Comment>, k: nat)
    requires k <= |cs| && RaisesOn(speak, bad)
    ensures Processed(speak, e, cs, k).raised <==> e.raised || exists j :: 0 <= j < k && bad(cs[j])
    decreases k
  {
    if k > 0 {
      ProcessedRaised(speak, bad, e, cs, k - 1);
      if bad(cs[k - 1]) {
        assert exists j :: 0 <= j < k && bad(cs[j]);
      } else {
        assert (exists j :: 0 <= j < k && bad(cs[j])) <==> (exists j :: 0 <= j < k - 1 && bad(cs[j]));
      }
    }
  }

  /** A raise freezes the length: a raised state has the length of some
      earlier one. */
  lemma {:induction false} RaisedKeepsLength(speak: Speaker, bad: Comment -> bool, e: Engine, cs: seq<Comment>, k: nat)
    requires k <= |cs| && RaisesOn(speak, bad) && !e.raised
    ensures Processed(speak, e, cs, k).raised ==>
      exists j :: 0 <= j < k && Processed(speak, e, cs, k).length == Processed(speak, e, cs, j).length
    decreases k
  {
    if k > 0 {
      var p := Processed(speak, e, cs, k - 1);
      if p.raised {
        RaisedKeepsLength(speak, bad, e, cs, k - 1);
        var j :| 0 <= j < k - 1 && p.length == Processed(speak, e, cs, j).length;
        assert Processed(speak, e, cs, k).length == Processed(speak, e, cs, j).length;
      }
    }
  }

  /** A run that stops at the budget has not raised: the stop follows a
      comment that added length, and a raise adds none from then on. */
  lemma StoppedRunDoesNotRaise(e: Engine, t: Thread, env: Env, m: nat)
    requires !e.raised && RunStopsBefore(e, t, env, m)
    ensures !Run(e, t, env).engine.raised
    ensures forall j :: 0 <= j < m ==> !NothingToSpeak(t.comments[j], env)
  {
    var bad := c => NothingToSpeak(c, env);
    SpeakRaisesOn(env);
    RunStopsAt(e, t, env, m);
    RaisedKeepsLength(Speak(env), bad, Start(e, t, env), t.comments, m);
    ProcessedRaised(Speak(env), bad, Start(e, t, env), t.comments, m);
  }

  /** A run that never stops raises exactly when some comment has nothing
      to speak: the exception escapes `run`, which then returns nothing. */
  lemma CompletedRunRaises(e: Engine, t: Thread, env: Env)
    requires NeverStops(Speak(env), env.maxLength, Start(e, t, env), t.comments)
    ensures Run(e, t, env).engine.raised
        <==> e.raised || exists j :: 0 <= j < |t.comments| && NothingToSpeak(t.comments[j], env)
  {
    SpeakRaisesOn(env);
    RunCompletes(e, t, env);
    ProcessedRaised(Speak(env), c => NothingToSpeak(c, env), Start(e, t, env), t.comments, |t.comments|);
  }

  // ---------------------------------------------------------------------
  // Which clips get made

  /** `b` is `a` after some comments were spoken: the call log only grew,
      by calls for comment keys, and no other file came or went. */
  ghost predicate Extends(a: Engine, b: Engine) {
    && |a.calls| <= |b.calls|
    && b.calls[..|a.calls|] == a.calls
    && (forall j :: |a.calls| <= j < |b.calls| ==> IsCommentKey(b.calls[j].key))
    && (forall k :: !IsCommentKey(k) ==> (k in b.files <==> k in a.files))
  }

  lemma ExtendsTransitive(a: Engine, b: Engine, c: Engine)
    requires Extends(a, b) && Extends(b, c)
    ensures Extends(a, c)
  {
    assert c.calls[..|a.calls|] == c.calls[..|b.calls|][..|a.calls|];
    forall j | |a.calls| <= j < |c.calls| ensures IsCommentKey(c.calls[j].key) {
      if j < |b.calls| {
        assert c.calls[j] == c.calls[..|b.calls|][j];
      }
    }
  }

  lemma ClipKeyIsCommentKey(i: nat)
    ensures IsCommentKey(ClipKey(i))
  {
    NatToStringDigits(i);
  }

  /** A comment is split exactly when its raw body is longer than
      `max_chars`, and the calls show it: a comment spoken whole makes one
      call, to its own clip; a split one calls the parts in order and never
      its own clip. */
  lemma StepCalls(e: Engine, i: nat, c: Comment, env: Env)
    ensures !e.raised && |c.body| <= env.maxChars ==>
      Step(e, i, c, env).calls == e.calls + [Call(ClipKey(i), env.process(c.body))]
    ensures !e.raised && |c.body| > env.maxChars ==>
      var texts := SplitTexts(c.body, env);
      var o := SplitParts(e, c.body, i, env);
      Step(e, i, c, env).calls == e.calls + PartCalls(i, 0, texts, if o.ok then |texts| else |o.parts| + 1)
  {
    if !e.raised && |c.body| > env.maxChars {
      SplitPostCalls(e, c.body, i, env);
    }
  }

  /** The split decision, read back from the calls: the comment's own clip
      is among the calls it made if and only if it was not split (and no
      exception had escaped before it). */
  lemma SplitDecision(e: Engine, i: nat, c: Comment, env: Env)
    ensures var r := Step(e, i, c, env);
      (exists j :: |e.calls| <= j < |r.calls| && r.calls[j].key == ClipKey(i))
        <==> !e.raised && |c.body| <= env.maxChars
  {
    var r := Step(e, i, c, env);
    StepCalls(e, i, c, env);
    if e.raised {
      assert r == e;
    } else if |c.body| <= env.maxChars {
      assert r.calls[|e.calls|].key == ClipKey(i);
    } else {
      var texts := SplitTexts(c.body, env);
      var o := SplitParts(e, c.body, i, env);
      var n := if o.ok then |texts| else |o.parts| + 1;
      forall j | |e.calls| <= j < |r.calls| ensures r.calls[j].key != ClipKey(i) {
        PartCallsAt(i, 0, texts, n, j - |e.calls|);
        PartKeyIsNotClipKey(i, j - |e.calls|, i);
      }
    }
  }

  /** Speaking a comment only touches comment keys. */
  lemma StepExtends(e: Engine, i: nat, c: Comment, env: Env)
    ensures Extends(e, Step(e, i, c, env))
  {
    var r := Step(e, i, c, env);
    StepCalls(e, i, c, env);
    ClipKeyIsCommentKey(i);
    if !e.raised && |c.body| > env.maxChars {
      var texts := SplitTexts(c.body, env);
      var o := SplitParts(e, c.body, i, env);
      var n := if o.ok then |texts| else |o.parts| + 1;
      forall j | |e.calls| <= j < |r.calls| ensures IsCommentKey(r.calls[j].key) {
        PartCallsAt(i, 0, texts, n, j - |e.calls|);
        PartKeyIsCommentKey(i, j - |e.calls|);
      }
      forall k | IsPartOf(k, i, |texts|) ensures IsCommentKey(k) {
        var j :| 0 <= j < |texts| && k == PartKey(i, j);
        PartKeyIsCommentKey(i, j);
      }
      if o.ok {
        SplitPostSuccess(e, c.body, i, env);
      } else {
        SplitPostFailure(e, c.body, i, env);
      }
    }
    assert r.calls[..|e.calls|] == e.calls;
  }

  lemma {:induction false} LoopExtends(speak: Speaker, maxLength: int, e: Engine, cs: seq<Comment>, i: nat)
    requires i <= |cs|
    requires forall e': Engine, i': nat, c: Comment :: Extends(e', speak(e', i', c))
    ensures Extends(e, CommentLoop(speak, maxLength, e, cs, i).engine)
    decreases |cs| - i
  {
    if i < |cs| && e.length <= maxLength as real {
      var e' := speak(e, i, cs[i]);
      LoopExtends(speak, maxLength, e', cs, i + 1);
      ExtendsTransitive(e, e', CommentLoop(speak, maxLength, e', cs, i + 1).engine);
    } else {
      assert e.calls[..|e.calls|] == e.calls;
    }
  }

  lemma SpeakExtends(env: Env)
    ensures forall e': Engine, i: nat, c: Comment :: Extends(e', Speak(env)(e', i, c))
  {
    forall e': Engine, i: nat, c: Comment ensures Extends(e', Speak(env)(e', i, c)) {
      StepExtends(e', i, c, env);
    }
  }

  /** What `run` speaks besides the comments, on a fresh engine: the title
      is always the first call; "posttext" is called if and only if the
      processed post text is non-empty in story mode; a stale "posttext"
      clip never survives into the output unless it was made afresh. */
  lemma RunHead(lastClipLength: int, existing: set<string>, t: Thread, env: Env)
    ensures var r := Run(NewEngine(lastClipLength, existing), t, env).engine;
      && |r.calls| >= 1
      && r.calls[0] == Call(TitleKey, env.process(t.title))
      && ((exists j :: 0 <= j < |r.calls| && r.calls[j].key == PostKey) <==> SpeaksPost(t, env))
      && (PostKey in r.files <==> SpeaksPost(t, env) && env.synth(PostKey, env.process(t.post)).Some?)
      && (TitleKey in r.files <==> TitleKey in existing || env.synth(TitleKey, env.process(t.title)).Some?)
  {
    var e := NewEngine(lastClipLength, existing);
    var s := Start(e, t, env);
    var r := Run(e, t, env).engine;
    SpeakExtends(env);
    LoopExtends(Speak(env), env.maxLength, s, t.comments, 0);
    assert !IsCommentKey(PostKey) && !IsCommentKey(TitleKey);
    assert r.calls[0] == r.calls[..|s.calls|][0];
    if SpeaksPost(t, env) {
      assert r.calls[1] == r.calls[..|s.calls|][1];
    } else {
      forall j | 0 <= j < |r.calls| ensures r.calls[j].key != PostKey {
        if j == 0 {
        } else {
          assert IsCommentKey(r.calls[j].key);
        }
      }
    }
  }

  // ---------------------------------------------------------------------
  // A worked example

  /** Every clip but the title lasts 3 seconds; the title lasts 2. */
  function ExampleEnv(): Env {
    Env(7, 10, false, (s: string) => s,
        (k: string, text: string) => if k == TitleKey then Some(2.0) else Some(3.0))
  }

  function ExampleThread(): Thread {
    Thread("T", "", [Comment("a"), Comment("b"), Comment("c")])
  }

  lemma ExampleSteps()
    ensures After(NewEngine(0, {}), ExampleThread(), ExampleEnv(), 0).length == 2.0
    ensures After(NewEngine(0, {}), ExampleThread(), ExampleEnv(), 1).length == 5.0
    ensures After(NewEngine(0, {}), ExampleThread(), ExampleEnv(), 2).length == 8.0
    ensures After(NewEngine(0, {}), ExampleThread(), ExampleEnv(), 2).lastClip == 3.0
  {
    var e, t, env := NewEngine(0, {}), ExampleThread(), ExampleEnv();
    var s := Start(e, t, env);
    assert s.length == 2.0;
    var p1 := After(e, t, env, 1);
    ProcessedStep(Speak(env), s, t.comments, 1);
    SpeakIsStep(env, s, 0, t.comments[0]);
    assert p1.length == 5.0;
    ProcessedStep(Speak(env), s, t.comments, 2);
    SpeakIsStep(env, p1, 1, t.comments[1]);
  }

  /** With a 7-second budget, a 2-second title and three 3-second
      comments, the budget is first found exceeded before comment 2 (at 8
      seconds): `run` takes back comment 1 and returns 5 seconds with index
      1, the index of the comment it took back. */
  lemma BudgetExample()
    ensures Run(NewEngine(0, {}), ExampleThread(), ExampleEnv()).engine.length == 5.0
    ensures Run(NewEngine(0, {}), ExampleThread(), ExampleEnv()).last == Some(1)
  {
    var e, t, env := NewEngine(0, {}), ExampleThread(), ExampleEnv();
    ExampleSteps();
    assert RunStopsBefore(e, t, env, 2);
    RunStopsAt(e, t, env, 2);
  }
}
