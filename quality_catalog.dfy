/**
 * The quality menu of `download_video`: the best audio-only stream, the
 * largest estimated combined size per video height, and the heights
 * numbered 1..N from the highest down.
 */
module QualityCatalog {
  import opened Wrappers
  import opened SizeEstimator

  /** `f.get('vcodec') == 'none' and f.get('acodec') != 'none'`: a missing acodec counts as audio. */
  predicate IsAudioOnly(f: Format) {
    f.vcodec == Some("none") && f.acodec != Some("none")
  }

  /** The key of `max`: `x.get('abr', 0) or 0`. */
  function AudioRank(f: Format): real {
    if f.abr.Some? then f.abr.value else 0.0
  }

  /** `f.get('vcodec') != 'none' and f.get('height')`: a missing vcodec counts as video, height 0 does not. */
  predicate IsVideo(f: Format) {
    f.vcodec != Some("none") && f.height.Some? && f.height.value != 0
  }

  predicate IsVideoAt(f: Format, h: int) {
    IsVideo(f) && f.height.value == h
  }

  /** Estimated size of the merged file: this video stream plus the chosen audio stream. */
  function Combined(f: Format, duration: Option<nat>, audioMB: real): real {
    SizeMB(f, duration) + audioMB
  }

  /**
   * `max(audio_formats, key=...)`: the index of the audio-only format with
   * the greatest rank, the first one among equals (as Python's `max`), or
   * `None` when there is no audio-only format.
   */
  method BestAudio(formats: seq<Format>) returns (best: Option<nat>)
    ensures best.None? <==> forall i :: 0 <= i < |formats| ==> !IsAudioOnly(formats[i])
    ensures best.Some? ==> best.value < |formats| && IsAudioOnly(formats[best.value])
    ensures best.Some? ==> forall i :: 0 <= i < |formats| && IsAudioOnly(formats[i]) ==>
      AudioRank(formats[i]) <= AudioRank(formats[best.value])
    ensures best.Some? ==> forall i :: 0 <= i < best.value && IsAudioOnly(formats[i]) ==>
      AudioRank(formats[i]) < AudioRank(formats[best.value])
  {
    best := None;
    var i := 0;
    while i < |formats|
      invariant 0 <= i <= |formats|
      invariant best.None? <==> forall j :: 0 <= j < i ==> !IsAudioOnly(formats[j])
      invariant best.Some? ==> best.value < i && IsAudioOnly(formats[best.value])
      invariant best.Some? ==> forall j :: 0 <= j < i && IsAudioOnly(formats[j]) ==>
        AudioRank(formats[j]) <= AudioRank(formats[best.value])
      invariant best.Some? ==> forall j :: 0 <= j < best.value && IsAudioOnly(formats[j]) ==>
        AudioRank(formats[j]) < AudioRank(formats[best.value])
    {
      var f := formats[i];
      if IsAudioOnly(f) && (best.None? || AudioRank(f) > AudioRank(formats[best.value])) {
        best := Some(i);
      }
      i := i + 1;
    }
  }

  /**
   * `best_audio_size`: the estimate of the audio-only format `max` picks
   * (greatest rank, first among equals), 0 when there is none.
   */
  method BestAudioSize(formats: seq<Format>, duration: Option<nat>) returns (mb: real)
    ensures (forall i :: 0 <= i < |formats| ==> !IsAudioOnly(formats[i])) ==> mb == 0.0
    ensures (exists i :: 0 <= i < |formats| && IsAudioOnly(formats[i])) ==>
      exists b :: 0 <= b < |formats| && IsAudioOnly(formats[b]) && mb == SizeMB(formats[b], duration)
        && (forall i :: 0 <= i < |formats| && IsAudioOnly(formats[i]) ==>
              AudioRank(formats[i]) <= AudioRank(formats[b]))
        && (forall i :: 0 <= i < b && IsAudioOnly(formats[i]) ==>
              AudioRank(formats[i]) < AudioRank(formats[b]))
  {
    mb := 0.0;
    var best := BestAudio(formats);
    if best.Some? {
      mb := SizeMB(formats[best.value], duration);
    }
  }

  /**
   * The `resolutions` dictionary: its keys are exactly the heights of the
   * video formats, and each value is the largest combined estimate among
   * the video formats of that height.
   */
  method Resolutions(formats: seq<Format>, duration: Option<nat>, audioMB: real)
    returns (res: map<int, real>)
    ensures forall h :: h in res <==> exists i :: 0 <= i < |formats| && IsVideoAt(formats[i], h)
    ensures forall i :: 0 <= i < |formats| && IsVideo(formats[i]) ==>
      formats[i].height.value in res && Combined(formats[i], duration, audioMB) <= res[formats[i].height.value]
    ensures forall h :: h in res ==>
      exists i :: 0 <= i < |formats| && IsVideoAt(formats[i], h) && res[h] == Combined(formats[i], duration, audioMB)
  {
    res := map[];
    ghost var from: map<int, nat> := map[];  // the index whose estimate each entry holds
    var i := 0;
    while i < |formats|
      invariant 0 <= i <= |formats|
      invariant forall j :: 0 <= j < i && IsVideo(formats[j]) ==>
        formats[j].height.value in res && Combined(formats[j], duration, audioMB) <= res[formats[j].height.value]
      invariant from.Keys == res.Keys
      invariant forall h :: h in res ==>
        from[h] < i && IsVideoAt(formats[from[h]], h) && res[h] == Combined(formats[from[h]], duration, audioMB)
    {
      var f := formats[i];
      if f.vcodec != Some("none") && f.height.Some? && f.height.value != 0 {
        var height := f.height.value;
        var total := SizeMB(f, duration) + audioMB;
        if height !in res || total > res[height] {
          res := res[height := total];
          from := from[height := i];
        }
      }
      i := i + 1;
    }
    forall h | h in res
      ensures exists i :: 0 <= i < |formats| && IsVideoAt(formats[i], h) && res[h] == Combined(formats[i], duration, audioMB)
    {
      var w := from[h];
      assert IsVideoAt(formats[w], h);
    }
  }

  predicate StrictlyDescending(hs: seq<int>) {
    forall i, j :: 0 <= i < j < |hs| ==> hs[i] > hs[j]
  }

  /** A strictly descending list holds as many distinct heights as it has entries. */
  lemma {:induction false} DistinctCount(hs: seq<int>)
    requires StrictlyDescending(hs)
    ensures |set x | x in hs| == |hs|
  {
    if |hs| > 0 {
      DistinctCount(hs[1..]);
      assert (set x | x in hs) == {hs[0]} + (set x | x in hs[1..]);
      assert hs[0] !in (set x | x in hs[1..]);
    }
  }

  /** In a strictly descending list, entry `k` (from 1) is the `k`-th highest: exactly `k` entries reach it. */
  lemma KthHighest(hs: seq<int>, k: int)
    requires StrictlyDescending(hs) && 1 <= k <= |hs|
    ensures |set x | x in hs && x >= hs[k - 1]| == k
  {
    var top := hs[..k];
    DistinctCount(top);
    forall x | x in hs && x >= hs[k - 1] ensures x in top {
      var j :| 0 <= j < |hs| && hs[j] == x;
      assert j < k;
      assert top[j] == x;
    }
    assert (set x | x in hs && x >= hs[k - 1]) == (set x | x in top);
  }

  /** Puts `x` into its place in a strictly descending list of other heights. */
  function InsertDescending(hs: seq<int>, x: int): (r: seq<int>)
    requires StrictlyDescending(hs) && x !in hs
    ensures StrictlyDescending(r)
    ensures forall y :: y in r <==> y in hs || y == x
    ensures |r| == |hs| + 1
  {
    if |hs| == 0 || x > hs[0] then
      assert forall y :: y in hs ==> y <= hs[0];
      ConsDescending(x, hs);
      [x] + hs
    else
      assert hs == [hs[0]] + hs[1..];
      var rest := InsertDescending(hs[1..], x);
      assert forall y :: y in rest ==> y < hs[0];
      ConsDescending(hs[0], rest);
      [hs[0]] + rest
  }

  /** A height above every entry of a strictly descending list can head it. */
  lemma ConsDescending(h: int, hs: seq<int>)
    requires StrictlyDescending(hs) && forall y :: y in hs ==> y < h
    ensures StrictlyDescending([h] + hs)
    ensures forall y :: y in [h] + hs <==> y == h || y in hs
  {
    var r := [h] + hs;
    assert forall j :: 1 <= j < |r| ==> r[j] == hs[j - 1] && r[j] in hs;
  }

  /** `sorted(resolutions.keys(), reverse=True)`: every height once, highest first. */
  method SortedHeights(res: map<int, real>) returns (hs: seq<int>)
    ensures StrictlyDescending(hs)
    ensures forall h :: h in hs <==> h in res
  {
    hs := [];
    var rest := res.Keys;
    while rest != {}
      invariant StrictlyDescending(hs)
      invariant forall h :: h in hs <==> h in res && h !in rest
      invariant rest <= res.Keys
      decreases rest
    {
      if forall y :: y !in rest {
        assert false;  // rest is not empty
      }
      var h :| h in rest;
      hs := InsertDescending(hs, h);
      rest := rest - {h};
    }
  }

  /** One printed line of the menu: the height, and the size suffix when there is one. */
  datatype Label = Label(height: int, approxMB: Option<real>)

  /** `f"{res}p (~{size:.1f} MB)" if size > 0 else f"{res}p"`. */
  function MakeLabel(height: int, size: real): (l: Label)
    ensures l.height == height
    ensures l.approxMB.None? <==> size <= 0.0
    ensures l.approxMB.Some? ==> l.approxMB.value == size
  {
    Label(height, if size > 0.0 then Some(size) else None)
  }

  /**
   * The `enumerate` loop: option `k` (from 1) stands for the `k`-th height
   * of the list, and each gets its label.
   */
  method NumberOptions(hs: seq<int>, sizes: map<int, real>) returns (options: map<int, int>, labels: seq<Label>)
    requires forall i :: 0 <= i < |hs| ==> hs[i] in sizes
    ensures forall k :: k in options <==> 1 <= k <= |hs|
    ensures forall k :: 1 <= k <= |hs| ==> options[k] == hs[k - 1]
    ensures |labels| == |hs|
    ensures forall i :: 0 <= i < |hs| ==> labels[i] == MakeLabel(hs[i], sizes[hs[i]])
  {
    options := map[];
    labels := [];
    var i := 0;
    while i < |hs|
      invariant 0 <= i <= |hs|
      invariant forall k :: k in options <==> 1 <= k <= i
      invariant forall k :: 1 <= k <= i ==> options[k] == hs[k - 1]
      invariant |labels| == i
      invariant forall j :: 0 <= j < i ==> labels[j] == MakeLabel(hs[j], sizes[hs[j]])
    {
      var height := hs[i];
      labels := labels + [MakeLabel(height, sizes[height])];
      options := options[i + 1 := height];
      i := i + 1;
    }
  }

  /** The menu is numbered 1..N with the heights strictly falling as the number rises. */
  ghost predicate NumberedByHeight(options: map<int, int>, hs: seq<int>) {
    && StrictlyDescending(hs)
    && (forall k :: k in options <==> 1 <= k <= |hs|)
    && (forall k :: 1 <= k <= |hs| ==> options[k] == hs[k - 1])
  }

  /** A strictly descending list is fixed by the heights it holds: the menu order has no choice left in it. */
  lemma {:induction false} DescendingUnique(a: seq<int>, b: seq<int>)
    requires StrictlyDescending(a) && StrictlyDescending(b)
    requires forall x :: x in a <==> x in b
    ensures a == b
  {
    assert |a| > 0 ==> a[0] in a && a[0] in b;
    assert |b| > 0 ==> b[0] in b && b[0] in a;
    if |a| > 0 && |b| > 0 {
      assert a[0] in a && b[0] in b;
      assert a[0] == b[0];
      forall x ensures x in a[1..] <==> x in b[1..] {
        assert x in a[1..] <==> x in a && x < a[0];
        assert x in b[1..] <==> x in b && x < b[0];
      }
      DescendingUnique(a[1..], b[1..]);
      assert a == [a[0]] + a[1..] && b == [b[0]] + b[1..];
    }
  }

  /** The set of heights some video format offers. */
  ghost function VideoHeights(formats: seq<Format>): set<int> {
    set i | 0 <= i < |formats| && IsVideo(formats[i]) :: formats[i].height.value
  }

  lemma VideoHeightsSpec(formats: seq<Format>, h: int)
    ensures h in VideoHeights(formats) <==> exists i :: 0 <= i < |formats| && IsVideoAt(formats[i], h)
  {
    if h in VideoHeights(formats) {
      var i :| 0 <= i < |formats| && IsVideo(formats[i]) && formats[i].height.value == h;
      assert IsVideoAt(formats[i], h);
    }
    if exists i :: 0 <= i < |formats| && IsVideoAt(formats[i], h) {
      var i :| 0 <= i < |formats| && IsVideoAt(formats[i], h);
      assert formats[i].height.value in VideoHeights(formats);
    }
  }

  /**
   * Lines 98-120 together: the numbered options cover exactly the video
   * heights, highest first, and each label carries the largest combined
   * estimate for its height, the best audio-only stream included.
   */
  method QualityMenu(formats: seq<Format>, duration: Option<nat>)
    returns (audioMB: real, sizes: map<int, real>, heights: seq<int>, options: map<int, int>, labels: seq<Label>)
    ensures (forall i :: 0 <= i < |formats| ==> !IsAudioOnly(formats[i])) ==> audioMB == 0.0
    ensures (exists i :: 0 <= i < |formats| && IsAudioOnly(formats[i])) ==>
      exists b :: 0 <= b < |formats| && IsAudioOnly(formats[b]) && audioMB == SizeMB(formats[b], duration)
        && (forall i :: 0 <= i < |formats| && IsAudioOnly(formats[i]) ==>
              AudioRank(formats[i]) <= AudioRank(formats[b]))
        && (forall i :: 0 <= i < b && IsAudioOnly(formats[i]) ==>
              AudioRank(formats[i]) < AudioRank(formats[b]))
    ensures NumberedByHeight(options, heights)
    ensures forall h :: h in heights <==> h in VideoHeights(formats)
    ensures |labels| == |heights|
    ensures forall k :: 0 <= k < |heights| ==> heights[k] in sizes && labels[k] == MakeLabel(heights[k], sizes[heights[k]])
    ensures sizes.Keys == VideoHeights(formats)
    ensures forall i :: 0 <= i < |formats| && IsVideo(formats[i]) ==>
      Combined(formats[i], duration, audioMB) <= sizes[formats[i].height.value]
    ensures forall h :: h in sizes ==>
      exists i :: 0 <= i < |formats| && IsVideoAt(formats[i], h) && sizes[h] == Combined(formats[i], duration, audioMB)
  {
    audioMB := BestAudioSize(formats, duration);
    sizes := Resolutions(formats, duration, audioMB);
    heights := SortedHeights(sizes);
    assert forall i :: 0 <= i < |heights| ==> heights[i] in heights;
    options, labels := NumberOptions(heights, sizes);
    forall h ensures h in sizes <==> h in VideoHeights(formats) {
      VideoHeightsSpec(formats, h);
    }
  }

  function Max(a: real, b: real): real {
    if a >= b then a else b
  }

  /** Heights 1080, 1080, 720 and 480 offer the set {1080, 720, 480}. */
  lemma ExampleHeights(formats: seq<Format>)
    requires |formats| == 4 && forall i :: 0 <= i < 4 ==> IsVideo(formats[i])
    requires formats[0].height == Some(1080) && formats[1].height == Some(1080)
    requires formats[2].height == Some(720) && formats[3].height == Some(480)
    ensures forall h :: h in VideoHeights(formats) <==> h in [1080, 720, 480]
  {
    forall h ensures h in VideoHeights(formats) <==> h in [1080, 720, 480] {
      VideoHeightsSpec(formats, h);
      assert IsVideoAt(formats[0], 1080) && IsVideoAt(formats[2], 720) && IsVideoAt(formats[3], 480);
    }
  }

  /**
   * Formats at heights 1080, 1080, 720 and 480 give exactly three entries,
   * highest first, and the 1080 entry is the larger of the two 1080 estimates.
   */
  method CatalogExample(formats: seq<Format>, duration: Option<nat>)
    returns (heights: seq<int>, sizes: map<int, real>, audioMB: real)
    requires |formats| == 4 && forall i :: 0 <= i < 4 ==> IsVideo(formats[i])
    requires formats[0].height == Some(1080) && formats[1].height == Some(1080)
    requires formats[2].height == Some(720) && formats[3].height == Some(480)
    ensures heights == [1080, 720, 480]
    ensures 1080 in sizes
    ensures sizes[1080] == Max(Combined(formats[0], duration, audioMB), Combined(formats[1], duration, audioMB))
  {
    var options, labels;
    audioMB, sizes, heights, options, labels := QualityMenu(formats, duration);
    ExampleHeights(formats);
    DescendingUnique(heights, [1080, 720, 480]);
    assert IsVideo(formats[0]) && IsVideo(formats[1]);
    var i :| 0 <= i < |formats| && IsVideoAt(formats[i], 1080) && sizes[1080] == Combined(formats[i], duration, audioMB);
    assert i == 0 || i == 1;
  }
}
