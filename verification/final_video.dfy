/**
  The assembly plan of `make_final_video` in video_creation/final_video.py:
  which audio clip and which screenshot belong to each item of the video,
  and the time window in which each screenshot is overlaid on the
  background while its audio plays.
 */
module FinalVideo {
  import opened Results
  import opened Text
  import opened Durations
  import TtsEngine
  import Sanitize

  /** An item of the video: the title, or comment `i`. */
  datatype Item = TitleItem | CommentItem(i: nat)

  /** Item `k` of a video: the title first, then the comments in order. */
  function ItemAt(k: nat): (it: Item)
    ensures k == 0 <==> it == TitleItem
    ensures k > 0 ==> it == CommentItem(k - 1)
  {
    if k == 0 then TitleItem else CommentItem(k - 1)
  }

  function TempDir(id: string): string {
    "assets/temp/" + id
  }

  /** The audio clip `run` wrote for an item. */
  function AudioOf(id: string, it: Item): string {
    match it
    case TitleItem => TempDir(id) + "/mp3/" + TtsEngine.TitleKey + ".mp3"
    case CommentItem(i) => TempDir(id) + "/mp3/" + TtsEngine.ClipKey(i) + ".mp3"
  }

  /** The screenshot taken for an item. */
  function ImageOf(id: string, it: Item): string {
    match it
    case TitleItem => TempDir(id) + "/png/title.png"
    case CommentItem(i) => TempDir(id) + "/png/comment_" + NatToString(i) + ".png"
  }

  /** The id the paths use: the thread id with everything but word
      characters, whitespace and `-` removed. */
  function VideoId(threadId: string): string {
    Sanitize.IdFilter(threadId)
  }

  /** `audio_clips`: the comments' clips, then the title's inserted in
      front. */
  function AudioClips(id: string, n: nat): (r: seq<string>)
    ensures |r| == n + 1
    ensures forall k :: 0 <= k < |r| ==> r[k] == AudioOf(id, ItemAt(k))
  {
    [AudioOf(id, TitleItem)] + seq(n, i requires 0 <= i < n => AudioOf(id, CommentItem(i)))
  }

  /** `image_clips`: the title's screenshot, then one per comment. */
  method ImageClips(id: string, n: nat) returns (r: seq<string>)
    ensures |r| == |AudioClips(id, n)|
    ensures forall k :: 0 <= k < |r| ==> r[k] == ImageOf(id, ItemAt(k))
  {
    r := [];
    r := [ImageOf(id, TitleItem)] + r;
    var i := 0;
    while i < n
      invariant 0 <= i <= n
      invariant |r| == i + 1
      invariant forall k :: 0 <= k < |r| ==> r[k] == ImageOf(id, ItemAt(k))
    {
      r := r + [ImageOf(id, CommentItem(i))];
      i := i + 1;
    }
  }

  /** The audio files of different items are different files. */
  lemma AudioOfInjective(id: string, a: Item, b: Item)
    requires AudioOf(id, a) == AudioOf(id, b)
    ensures a == b
  {
    var prefix := TempDir(id) + "/mp3/";
    var x, y := AudioOf(id, a), AudioOf(id, b);
    var ka := if a.TitleItem? then TtsEngine.TitleKey else TtsEngine.ClipKey(a.i);
    var kb := if b.TitleItem? then TtsEngine.TitleKey else TtsEngine.ClipKey(b.i);
    assert x == prefix + ka + ".mp3" && y == prefix + kb + ".mp3";
    assert |ka| == |kb|;
    assert ka == x[|prefix|..|prefix| + |ka|];
    assert kb == y[|prefix|..|prefix| + |kb|];
    if a.CommentItem? && b.CommentItem? {
      NatToStringInjective(a.i, b.i);
    } else if a.CommentItem? {
      NatToStringDigits(a.i);
    } else if b.CommentItem? {
      NatToStringDigits(b.i);
    }
  }

  /** No audio file is used twice. */
  lemma AudioClipsDistinct(id: string, n: nat)
    ensures var r := AudioClips(id, n);
      forall j, k :: 0 <= j < k < |r| ==> r[j] != r[k]
  {
    var r := AudioClips(id, n);
    forall j, k | 0 <= j < k < |r| ensures r[j] != r[k] {
      if r[j] == r[k] {
        AudioOfInjective(id, ItemAt(j), ItemAt(k));
      }
    }
  }

  // ---------------------------------------------------------------------
  // The timeline

  /** One overlay: a screenshot with its audio clip, shown between two
      times (`between(t, now, nextnow)`). */
  datatype Overlay = Overlay(image: string, audio: string, start: real, end: real)

  /** The `now`/`nextnow` loop: each screenshot is shown from the running
      total of the clip lengths before it to that total plus its own
      clip's length. The audio track is ffmpeg's concatenation of the clips
      in the same order; if its clips last as long as they were probed,
      the window of item `k` is when its clip plays. */
  method Timeline(images: seq<string>, audios: seq<string>, lengths: seq<Duration>)
    returns (overlays: seq<Overlay>, now: real)
    requires |audios| >= |images| && |lengths| >= |images|
    ensures |overlays| == |images|
    ensures forall k :: 0 <= k < |overlays| ==>
      && overlays[k].image == images[k] && overlays[k].audio == audios[k]
      && overlays[k].start == Sum(lengths[..k]) && overlays[k].end == Sum(lengths[..k + 1])
    ensures now == Sum(lengths[..|images|])
  {
    overlays := [];
    now := 0.0;
    var i := 0;
    while i < |images|
      invariant 0 <= i <= |images|
      invariant |overlays| == i
      invariant now == Sum(lengths[..i])
      invariant forall k :: 0 <= k < i ==>
        && overlays[k].image == images[k] && overlays[k].audio == audios[k]
        && overlays[k].start == Sum(lengths[..k]) && overlays[k].end == Sum(lengths[..k + 1])
    {
      var nextnow := lengths[i] + now;
      SumSnoc(lengths, i);
      overlays := overlays + [Overlay(images[i], audios[i], now, nextnow)];
      now := nextnow;
      i := i + 1;
    }
  }

  /** The first window opens at time zero. */
  lemma TimelineStartsAtZero(lengths: seq<Duration>)
    ensures Sum(lengths[..0]) == 0.0
  {
    assert lengths[..0] == [];
  }

  /** Windows follow one another without gaps and without overlap: each
      starts where the previous one ends, and a later one never starts
      before an earlier one has ended. */
  lemma WindowsInOrder(lengths: seq<Duration>, j: nat, k: nat)
    requires j < k < |lengths|
    ensures Sum(lengths[..j]) <= Sum(lengths[..j + 1]) <= Sum(lengths[..k])
  {
    PrefixSumMonotone(lengths, j, j + 1);
    PrefixSumMonotone(lengths, j + 1, k);
  }

  /** `lengths`: each audio file probed, in list order. Opening a clip
      that is missing or unreadable raises, so one clip that cannot be
      probed makes the whole list fail. */
  method ProbeAll(audios: seq<string>, probe: string -> Option<Duration>)
    returns (lengths: Option<seq<Duration>>)
    ensures lengths.None? <==> exists k :: 0 <= k < |audios| && probe(audios[k]).None?
    ensures lengths.Some? ==> |lengths.value| == |audios|
    ensures lengths.Some? ==> forall k :: 0 <= k < |audios| ==> probe(audios[k]) == Some(lengths.value[k])
  {
    var acc: seq<Duration> := [];
    var i := 0;
    while i < |audios|
      invariant 0 <= i <= |audios|
      invariant |acc| == i
      invariant forall k :: 0 <= k < i ==> probe(audios[k]) == Some(acc[k])
    {
      var m := probe(audios[i]);
      if m.None? {
        return None;
      }
      acc := acc + [m.value];
      i := i + 1;
    }
    lengths := Some(acc);
  }

  /** A window lasts exactly as long as its clip. */
  lemma WindowLength(lengths: seq<Duration>, k: nat)
    requires k < |lengths|
    ensures Sum(lengths[..k + 1]) - Sum(lengths[..k]) == lengths[k]
  {
    SumSnoc(lengths, k);
  }

  /** Windows laid out by running totals start at zero, last exactly as
      long as their clips, and follow one another without gap or overlap. */
  lemma {:induction false} WindowsBackToBack(overlays: seq<Overlay>, lengths: seq<Duration>)
    requires |overlays| <= |lengths|
    requires forall k :: 0 <= k < |overlays| ==>
      overlays[k].start == Sum(lengths[..k]) && overlays[k].end == Sum(lengths[..k + 1])
    ensures |overlays| > 0 ==> overlays[0].start == 0.0
    ensures forall k :: 0 <= k < |overlays| ==> overlays[k].end - overlays[k].start == lengths[k]
    ensures forall k :: 0 < k < |overlays| ==> overlays[k].start == overlays[k - 1].end
  {
    TimelineStartsAtZero(lengths);
    forall k | 0 <= k < |overlays|
      ensures overlays[k].end - overlays[k].start == lengths[k]
    {
      assert overlays[k].start == Sum(lengths[..k]) && overlays[k].end == Sum(lengths[..k + 1]);
      WindowLength(lengths, k);
    }
    forall k | 0 < k < |overlays| ensures overlays[k].start == overlays[k - 1].end {
      var j := k - 1;
      assert overlays[k].start == Sum(lengths[..k]) && overlays[k].end == Sum(lengths[..k + 1]);
      assert overlays[j].start == Sum(lengths[..j]) && overlays[j].end == Sum(lengths[..j + 1]);
      assert lengths[..j + 1] == lengths[..k];
    }
  }

  /** The result of assembling a video: its overlays and the final `now`,
      the sum of the probed clip lengths. */
  datatype Assembly = Assembly(overlays: seq<Overlay>, total: real)

  /** Probing the clips and laying out the overlays, for any lists of
      screenshots and clips of the same length: the assembly fails exactly
      when some clip cannot be probed, and otherwise overlay `k` shows
      screenshot `k` with clip `k` for the clip's probed length, back to
      back from zero. */
  method Assemble(images: seq<string>, audios: seq<string>, probe: string -> Option<Duration>)
    returns (r: Option<Assembly>)
    requires |images| == |audios| > 0
    ensures r.None? <==> exists k :: 0 <= k < |audios| && probe(audios[k]).None?
    ensures r.Some? ==> |r.value.overlays| == |images|
    ensures r.Some? ==> forall k :: 0 <= k < |r.value.overlays| ==>
      var o := r.value.overlays[k];
      o.image == images[k] && o.audio == audios[k] && probe(audios[k]) == Some(o.end - o.start)
    ensures r.Some? ==> r.value.overlays[0].start == 0.0
    ensures r.Some? ==> forall k :: 0 < k < |r.value.overlays| ==>
      r.value.overlays[k].start == r.value.overlays[k - 1].end
    ensures r.Some? ==> r.value.total == r.value.overlays[|images| - 1].end
  {
    var probed := ProbeAll(audios, probe);
    if probed.None? {
      return None;
    }
    var lengths := probed.value;
    var overlays, total := Timeline(images, audios, lengths);
    WindowsBackToBack(overlays, lengths);
    var last := |images| - 1;
    assert lengths[..last + 1] == lengths[..|images|];
    r := Some(Assembly(overlays, total));
  }

  /** The plan for a video of `n` comments: the clip lengths come from
      probing each audio file, in list order, and the assembly fails when
      any clip cannot be probed. Otherwise each item's screenshot is shown
      with its own clip, for exactly as long as the clip lasts, starting at
      zero and back to back, and the sum of the probed lengths is the end
      of the last window. */
  method Plan(threadId: string, n: nat, probe: string -> Option<Duration>)
    returns (r: Option<Assembly>)
    ensures r.None? <==> exists k :: 0 <= k <= n && probe(AudioClips(VideoId(threadId), n)[k]).None?
    ensures r.Some? ==> |r.value.overlays| == n + 1
    ensures r.Some? ==> forall k :: 0 <= k < |r.value.overlays| ==>
      var o := r.value.overlays[k];
      && o.image == ImageOf(VideoId(threadId), ItemAt(k))
      && o.audio == AudioClips(VideoId(threadId), n)[k]
      && probe(o.audio) == Some(o.end - o.start)
    ensures r.Some? ==> r.value.overlays[0].start == 0.0
    ensures r.Some? ==> forall k :: 0 < k < |r.value.overlays| ==>
      r.value.overlays[k].start == r.value.overlays[k - 1].end
    ensures r.Some? ==> r.value.total == r.value.overlays[n].end
  {
    var id := VideoId(threadId);
    var images := ImageClips(id, n);
    r := Assemble(images, AudioClips(id, n), probe);
  }
}
