/**
 * `compress_local_file` without the file picker and the encoder process:
 * the output path beside the input and the encoder command line.
 */
module LocalCompress {
  import opened JobConfig

  /** Windows path separators, as `ntpath` splits on both. */
  predicate IsPathSep(c: char) {
    c == '/' || c == '\\'
  }

  /** Index of the last separator, -1 when there is none. */
  function LastSep(p: string): (i: int)
    ensures -1 <= i < |p|
    ensures i >= 0 ==> IsPathSep(p[i])
    ensures forall k :: i < k < |p| ==> !IsPathSep(p[k])
  {
    if |p| == 0 then -1
    else if IsPathSep(p[|p| - 1]) then |p| - 1
    else LastSep(p[..|p| - 1])
  }

  /** Index of the last '.', -1 when there is none. */
  function LastDot(p: string): (i: int)
    ensures -1 <= i < |p|
    ensures i >= 0 ==> p[i] == '.'
    ensures forall k :: i < k < |p| ==> p[k] != '.'
  {
    if |p| == 0 then -1
    else if p[|p| - 1] == '.' then |p| - 1
    else LastDot(p[..|p| - 1])
  }

  /** A character other than '.' between the last separator and the last dot. */
  predicate NamedBeforeDot(p: string, sep: int, dot: int)
    requires -1 <= sep && dot <= |p|
  {
    exists k :: sep < k < dot && p[k] != '.'
  }

  /**
   * `os.path.splitext`: the extension runs from the last dot of the last
   * path component, unless the component has nothing but dots before it
   * (".profile" has no extension). The two parts put back together give
   * the path.
   */
  function SplitExt(p: string): (r: (string, string))
    ensures r.0 + r.1 == p
    ensures r.1 == "" || (r.1[0] == '.' && forall k :: 1 <= k < |r.1| ==> r.1[k] != '.' && !IsPathSep(r.1[k]))
    ensures r.1 != "" <==> exists d, k :: LastSep(p) < k < d < |p| && p[d] == '.' && p[k] != '.'
    ensures r.1 != "" ==> |r.0| == LastDot(p)
  {
    var sep, dot := LastSep(p), LastDot(p);
    if dot > sep && NamedBeforeDot(p, sep, dot) then
      assert p[..dot] + p[dot..] == p;
      (p[..dot], p[dot..])
    else (p, "")
  }

  /** A Windows path: the extension is the part from the last dot of the file name. */
  lemma SplitExtWindowsPath(p: string)
    requires p == "C:\\v\\clip.mp4"
    ensures SplitExt(p) == ("C:\\v\\clip", ".mp4")
  {
    assert p[2] == '\\' && p[4] == '\\' && p[5] == 'c' && p[9] == '.';
    assert forall k :: 4 < k < |p| ==> !IsPathSep(p[k]);
    assert LastSep(p) == 4;
    assert forall k :: 9 < k < |p| ==> p[k] != '.';
    assert LastDot(p) == 9;
    assert p[..9] == "C:\\v\\clip" && p[9..] == ".mp4";
  }

  /** A name made only of a leading dot and letters has no extension. */
  lemma SplitExtDotFile(p: string)
    requires p == ".profile"
    ensures SplitExt(p) == (".profile", "")
  {
    assert forall d :: 0 < d < |p| ==> p[d] != '.';
  }

  /** A dot in a folder name is not an extension. */
  lemma SplitExtDotInFolder(p: string)
    requires p == "a.d/f"
    ensures SplitExt(p) == ("a.d/f", "")
  {
    assert p[3] == '/' && forall k :: 3 < k < |p| ==> !IsPathSep(p[k]) && p[k] != '.';
    assert LastSep(p) == 3;
  }

  /** `f"{base}_compressed{ext}"`. */
  function CompressedPath(p: string): string {
    var (base, ext) := SplitExt(p);
    base + "_compressed" + ext
  }

  lemma {:induction false} LastSepAppend(a: string, b: string)
    requires forall k :: 0 <= k < |b| ==> !IsPathSep(b[k])
    ensures LastSep(a + b) == LastSep(a)
  {
    if |b| > 0 {
      assert (a + b)[..|a + b| - 1] == a + b[..|b| - 1];
      LastSepAppend(a, b[..|b| - 1]);
    } else {
      assert a + b == a;
    }
  }

  lemma {:induction false} LastDotAppend(a: string, b: string)
    requires forall k :: 0 <= k < |b| ==> b[k] != '.'
    ensures LastDot(a + b) == LastDot(a)
  {
    if |b| > 0 {
      assert (a + b)[..|a + b| - 1] == a + b[..|b| - 1];
      LastDotAppend(a, b[..|b| - 1]);
    } else {
      assert a + b == a;
    }
  }

  /** Without an extension, the suffix goes at the end and none appears. */
  lemma NoExtensionCompressed(p: string)
    requires SplitExt(p).1 == ""
    ensures SplitExt(p + "_compressed") == (p + "_compressed", "")
  {
    var suffix := "_compressed";
    var out := p + suffix;
    LastSepAppend(p, suffix);
    LastDotAppend(p, suffix);
  }

  /** With an extension, the suffix goes before it and the extension is found again. */
  lemma ExtensionCompressed(p: string)
    requires SplitExt(p).1 != ""
    ensures SplitExt(SplitExt(p).0 + "_compressed" + SplitExt(p).1)
         == (SplitExt(p).0 + "_compressed", SplitExt(p).1)
  {
    var (base, ext) := SplitExt(p);
    forall j | 0 <= j < |ext| ensures !IsPathSep(ext[j]) {
      if j == 0 {
        assert ext[j] == '.';
      }
    }
    assert p == base + "" + ext;
    SeparatorMark(base, "", ext);
    var k :| LastSep(p) < k < LastDot(p) && p[k] != '.';
    assert base[k] == p[k];
    SplitCompressed(base, "_compressed", ext, k);
  }

  /**
   * Between a base whose file name has a non-dot character at `k` and an
   * extension, a suffix free of separators makes the split fall right
   * before the extension.
   */
  lemma SplitCompressed(base: string, suffix: string, ext: string, k: int)
    requires |ext| > 0 && ext[0] == '.' && forall j :: 1 <= j < |ext| ==> ext[j] != '.' && !IsPathSep(ext[j])
    requires forall j :: 0 <= j < |suffix| ==> !IsPathSep(suffix[j])
    requires LastSep(base) < k < |base| && base[k] != '.'
    ensures SplitExt(base + suffix + ext) == (base + suffix, ext)
  {
    forall j | 0 <= j < |ext| ensures !IsPathSep(ext[j]) {
      if j == 0 {
        assert ext[j] == '.';
      }
    }
    SeparatorMark(base, suffix, ext);
    DotMark(base + suffix, ext);
    var out := base + suffix + ext;
    var cut := |base| + |suffix|;
    assert out[..cut] == base + suffix && out[cut..] == ext;
    assert out[k] == base[k];
    SplitAt(out, k);
  }

  /** A non-dot character of the file name before its last dot puts the split at that dot. */
  lemma SplitAt(q: string, k: int)
    requires LastSep(q) < k < LastDot(q) && q[k] != '.'
    ensures SplitExt(q) == (q[..LastDot(q)], q[LastDot(q)..])
  {
    assert NamedBeforeDot(q, LastSep(q), LastDot(q));
  }

  /** A tail free of separators keeps the base's last separator. */
  lemma SeparatorMark(base: string, suffix: string, ext: string)
    requires forall k :: 0 <= k < |suffix| ==> !IsPathSep(suffix[k])
    requires forall k :: 0 <= k < |ext| ==> !IsPathSep(ext[k])
    ensures LastSep(base + suffix + ext) == LastSep(base)
  {
    var tail := suffix + ext;
    forall k | 0 <= k < |tail| ensures !IsPathSep(tail[k]) {
      if k < |suffix| {
        assert tail[k] == suffix[k];
      } else {
        assert tail[k] == ext[k - |suffix|];
      }
    }
    assert base + suffix + ext == base + tail;
    LastSepAppend(base, tail);
  }

  /** The last dot of a text ending in an extension is the extension's. */
  lemma DotMark(head: string, ext: string)
    requires |ext| > 0 && ext[0] == '.' && forall k :: 1 <= k < |ext| ==> ext[k] != '.'
    ensures LastDot(head + ext) == |head|
  {
    var h := head + ['.'];
    assert head + ext == h + ext[1..];
    LastDotAppend(h, ext[1..]);
    assert h[|h| - 1] == '.';
  }

  /**
   * The output keeps the input's extension: splitting it again gives the
   * input's base with the suffix, and the same extension. It never equals
   * the input, so the input is never overwritten.
   */
  lemma CompressedKeepsExtension(p: string)
    ensures SplitExt(CompressedPath(p)) == (SplitExt(p).0 + "_compressed", SplitExt(p).1)
    ensures CompressedPath(p) != p
  {
    var (base, ext) := SplitExt(p);
    assert |CompressedPath(p)| == |p| + |"_compressed"|;
    if ext == "" {
      assert CompressedPath(p) == p + "_compressed";
      NoExtensionCompressed(p);
    } else {
      ExtensionCompressed(p);
    }
  }

  /** The `ffmpeg` argument list: the same fixed encoder settings as a compressed download. */
  function EncoderCommand(p: string): (cmd: seq<string>)
    ensures |cmd| == |EncoderArgs| + 4
    ensures cmd[..3] == ["ffmpeg", "-i", p]
    ensures cmd[3..|cmd| - 1] == EncoderArgs
    ensures cmd[|cmd| - 1] == CompressedPath(p)
  {
    ["ffmpeg", "-i", p] + EncoderArgs + [CompressedPath(p)]
  }

  datatype LocalOutcome =
    | NoFileSelected                  // "No file selected. Returning to menu."
    | RunEncoder(cmd: seq<string>, output: string)

  /** Lines 57-75: an empty selection returns to the menu, any other runs the encoder on it. */
  function CompressLocal(selected: string): (r: LocalOutcome)
    ensures r.NoFileSelected? <==> selected == ""
    ensures r.RunEncoder? ==> r.cmd == EncoderCommand(selected) && r.output == CompressedPath(selected)
  {
    if selected == "" then NoFileSelected
    else RunEncoder(EncoderCommand(selected), CompressedPath(selected))
  }
}
