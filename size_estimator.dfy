/**
 * `get_size_mb`: an estimate, in megabytes of 1024 * 1024 bytes, of the
 * size of one format, from the first of its size fields that is truthy.
 */
module SizeEstimator {
  import opened Wrappers

  /**
   * One entry of `info['formats']`. Every key may be missing or hold
   * `None`; both are `None` here. Sizes and rates are reals.
   */
  datatype Format = Format(
    height: Option<int>,
    vcodec: Option<string>,
    acodec: Option<string>,
    abr: Option<real>,
    tbr: Option<real>,
    filesize: Option<real>,
    filesizeApprox: Option<real>)

  const BytesPerMB: real := 1048576.0

  /** Python truthiness of an optional number: present and non-zero. */
  predicate Truthy(x: Option<real>) {
    x.Some? && x.value != 0.0
  }

  predicate DurationKnown(duration: Option<nat>) {
    duration.Some? && duration.value != 0
  }

  /** The size and rate fields the extractor reports are never negative. */
  predicate NonNegative(f: Format) {
    && (f.filesize.Some? ==> f.filesize.value >= 0.0)
    && (f.filesizeApprox.Some? ==> f.filesizeApprox.value >= 0.0)
    && (f.tbr.Some? ==> f.tbr.value >= 0.0)
  }

  /** Some rule of the estimate applies: a size is declared or can be derived from the bitrate. */
  predicate HasSizeMetadata(f: Format, duration: Option<nat>) {
    Truthy(f.filesize) || Truthy(f.filesizeApprox) || (Truthy(f.tbr) && DurationKnown(duration))
  }

  /** Bytes streamed at `tbr` kilobits per second for `seconds` seconds. */
  function BitrateBytes(tbr: real, seconds: nat): (bytes: real)
    ensures tbr > 0.0 && seconds > 0 ==> bytes > 0.0
  {
    var perSecond := tbr * 1000.0 / 8.0;
    assert tbr > 0.0 ==> perSecond > 0.0;
    perSecond * seconds as real
  }

  /**
   * `get_size_mb`: the exact size, else the approximate size, else
   * bitrate times duration, else 0. A field equal to 0 counts as missing.
   * For honest metadata the estimate is never negative, and it is
   * positive exactly when one of the rules applies.
   */
  function SizeMB(f: Format, duration: Option<nat>): (mb: real)
    ensures NonNegative(f) ==> mb >= 0.0
    ensures NonNegative(f) ==> (mb > 0.0 <==> HasSizeMetadata(f, duration))
  {
    if Truthy(f.filesize) then f.filesize.value / BytesPerMB
    else if Truthy(f.filesizeApprox) then f.filesizeApprox.value / BytesPerMB
    else if Truthy(f.tbr) && DurationKnown(duration) then
      BitrateBytes(f.tbr.value, duration.value) / BytesPerMB
    else 0.0
  }

  /** Once a field is truthy, the fields after it in the precedence are never consulted. */
  lemma SizePrecedence(f: Format, duration: Option<nat>, g: Format, other: Option<nat>)
    ensures Truthy(f.filesize) && g.filesize == f.filesize ==>
      SizeMB(f, duration) == SizeMB(g, other) == f.filesize.value / BytesPerMB
    ensures (!Truthy(f.filesize) && Truthy(f.filesizeApprox)
             && !Truthy(g.filesize) && g.filesizeApprox == f.filesizeApprox) ==>
      SizeMB(f, duration) == SizeMB(g, other) == f.filesizeApprox.value / BytesPerMB
  {
  }

  /** A field holding 0 falls through to the next rule exactly as a missing one does. */
  lemma ZeroFallsThrough(f: Format, duration: Option<nat>)
    ensures SizeMB(f.(filesize := Some(0.0)), duration) == SizeMB(f.(filesize := None), duration)
    ensures SizeMB(f.(filesizeApprox := Some(0.0)), duration)
      == SizeMB(f.(filesizeApprox := None), duration)
    ensures SizeMB(f.(tbr := Some(0.0)), duration) == SizeMB(f.(tbr := None), duration)
    ensures SizeMB(f, Some(0)) == SizeMB(f, None)
  {
  }

  /** The worked estimates: 100 MiB declared, and 1000 kbit/s for 800 s. */
  lemma SizeExamples(anyDuration: Option<nat>)
    ensures SizeMB(Format(None, None, None, None, None, Some(104857600.0), None), anyDuration) == 100.0
    ensures SizeMB(Format(None, None, None, None, Some(1000.0), None, None), Some(800))
      == 1000.0 * 1000.0 / 8.0 * 800.0 / 1048576.0
    ensures SizeMB(Format(None, None, None, None, None, None, None), anyDuration) == 0.0
  {
  }
}
