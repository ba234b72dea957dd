/** The info route's view of yt-dlp's format list (src/routes/info.ts): each
    format is cut down to a fixed set of properties with a resolution filled
    in from the dimensions, and quality presets are derived from whether any
    format carries both audio and video. */
module Info {
  import opened Common
  import opened Strings
  import opened Validation

  /** The properties a summary keeps, each possibly missing from yt-dlp's
      entry. Widths and heights are integral pixel counts; rates and the
      quality score are only copied. */
  datatype Format = Format(
    format_id: Option<string>, ext: Option<string>, protocol: Option<string>,
    acodec: Option<string>, vcodec: Option<string>, resolution: Option<string>,
    height: Option<int>, width: Option<int>, fps: Option<real>, abr: Option<real>, tbr: Option<real>,
    filesize: Option<int>, filesize_approx: Option<int>, format_note: Option<string>, quality: Option<real>)

  /** One entry of yt-dlp's `formats`: the properties above and every other
      property, which the summary drops. */
  datatype RawFormat = RawFormat(fields: Format, others: map<string, string>)

  /** JavaScript truthiness of an optional string and an optional number. */
  predicate Truthy(s: Option<string>) { s.Some? && s.value != "" }
  predicate TruthyNumber(n: Option<int>) { n.Some? && n.value != 0 }

  /** `format.resolution || (width && height ? "<width>x<height>" : undefined)`. */
  function Resolution(f: Format): (r: Option<string>)
    ensures Truthy(f.resolution) ==> r == f.resolution
    ensures r.None? <==> !Truthy(f.resolution) && !(TruthyNumber(f.width) && TruthyNumber(f.height))
    ensures r.Some? ==> r.value != ""
  {
    if Truthy(f.resolution) then f.resolution
    else if TruthyNumber(f.width) && TruthyNumber(f.height) then
      Some(IntToString(f.width.value) + "x" + IntToString(f.height.value))
    else None
  }

  /** Reads `"<width>x<height>"` back into its two numbers. */
  function ParseDimensions(s: string): Option<(int, int)> {
    var parts := Split(s, 'x');
    if |parts| != 2 then None
    else match (ParseInt(parts[0]), ParseInt(parts[1]))
      case (Some(w), Some(h)) => Some((w, h))
      case _ => None
  }

  /** A resolution derived from the dimensions states exactly those
      dimensions. */
  lemma DerivedResolutionRoundTrip(f: Format)
    requires !Truthy(f.resolution) && TruthyNumber(f.width) && TruthyNumber(f.height)
    ensures ParseDimensions(Resolution(f).value) == Some((f.width.value, f.height.value))
  {
    var w, h := IntToString(f.width.value), IntToString(f.height.value);
    SplitConcat(w, 'x', h);
    SplitNone(h, 'x');
    assert w + "x" + h == w + ['x'] + h;
    IntToStringRoundTrip(f.width.value);
    IntToStringRoundTrip(f.height.value);
  }

  /** The summary of one format: its own properties with the resolution
      filled in. */
  function Summarize(raw: RawFormat): (s: Format)
    ensures s.resolution == Resolution(raw.fields)
    ensures s.(resolution := raw.fields.resolution) == raw.fields
  {
    raw.fields.(resolution := Resolution(raw.fields))
  }

  /** Properties outside the summary make no difference to it. */
  lemma SummarizeIgnoresOthers(f: Format, a: map<string, string>, b: map<string, string>)
    ensures Summarize(RawFormat(f, a)) == Summarize(RawFormat(f, b))
  {
  }

  /** Summarising a summary changes nothing: a filled-in resolution is
      truthy and is kept as it is. */
  lemma SummarizeIdempotent(raw: RawFormat, others: map<string, string>)
    ensures Summarize(RawFormat(Summarize(raw), others)) == Summarize(raw)
  {
    var s := Summarize(raw);
    if s.resolution.Some? {
      assert Truthy(s.resolution);
    }
  }

  /** `formats.map(summarize)`. */
  function SummarizeFormats(formats: seq<RawFormat>): (r: seq<Format>)
    ensures |r| == |formats|
    ensures forall k :: 0 <= k < |r| ==> r[k] == Summarize(formats[k])
    ensures forall k :: 0 <= k < |r| ==> r[k].format_id == formats[k].fields.format_id
  {
    seq(|formats|, k requires 0 <= k < |formats| => Summarize(formats[k]))
  }

  /** Summaries seen again as entries without other properties. */
  function AsEntries(formats: seq<Format>): (r: seq<RawFormat>)
    ensures |r| == |formats|
    ensures forall k :: 0 <= k < |r| ==> r[k] == RawFormat(formats[k], map[])
  {
    seq(|formats|, k requires 0 <= k < |formats| => RawFormat(formats[k], map[]))
  }

  /** Summarising a summarised list gives the same list. */
  lemma SummarizeFormatsIdempotent(formats: seq<RawFormat>)
    ensures SummarizeFormats(AsEntries(SummarizeFormats(formats))) == SummarizeFormats(formats)
  {
    var s := SummarizeFormats(formats);
    forall k | 0 <= k < |s| ensures Summarize(RawFormat(s[k], map[])) == s[k] {
      SummarizeIdempotent(formats[k], map[]);
    }
  }

  /** `value ?? []`: a missing list is an empty list. */
  function OrEmpty<T>(o: Option<seq<T>>): (r: seq<T>)
    ensures o.None? ==> r == []
    ensures o.Some? ==> r == o.value
  {
    if o.None? then [] else o.value
  }

  /** The summaries the route sends for the `formats` of yt-dlp's answer. */
  function FormatsOf(formats: Option<seq<RawFormat>>): (r: seq<Format>)
    ensures formats.None? ==> r == []
    ensures formats.Some? ==> |r| == |formats.value|
  {
    SummarizeFormats(OrEmpty(formats))
  }

  // ---------------------------------------------------------------------------
  // presets

  /** A format with both video and audio; a missing codec is not `"none"`. */
  predicate IsMuxed(f: Format) {
    f.vcodec != Some("none") && f.acodec != Some("none")
  }

  /** `formats.some(isMuxed)`. */
  function HasMuxed(formats: seq<Format>): bool {
    |formats| > 0 && (IsMuxed(formats[0]) || HasMuxed(formats[1..]))
  }

  /** `some` holds exactly when one of the formats is muxed. */
  lemma {:induction false} HasMuxedIff(formats: seq<Format>)
    ensures HasMuxed(formats) <==> exists k :: 0 <= k < |formats| && IsMuxed(formats[k])
  {
    if |formats| > 0 {
      HasMuxedIff(formats[1..]);
      if exists k :: 0 <= k < |formats| && IsMuxed(formats[k]) {
        var k :| 0 <= k < |formats| && IsMuxed(formats[k]);
        if k > 0 {
          assert IsMuxed(formats[1..][k - 1]);
        }
      }
      if exists k :: 0 <= k < |formats[1..]| && IsMuxed(formats[1..][k]) {
        var k :| 0 <= k < |formats[1..]| && IsMuxed(formats[1..][k]);
        assert IsMuxed(formats[k + 1]);
      }
    }
  }

  datatype Target = Target(key: string, selector: string)
  datatype Presets = Presets(best_audio: string, best_video: string, best_muxed: string, targets: seq<Target>)

  /** The heights offered as targets, in the order they are listed, as the
      decimal text that appears in keys and selectors. */
  const TargetHeights: seq<string> := ["144", "360", "720", "1080"]

  /** The height cap of a target selector. */
  function Cap(height: string): string {
    "[height<=" + height + "]"
  }

  /** The selector of a target: the best single file under the cap when
      muxed files exist, otherwise the best video and audio under the cap
      with the best single file as fallback. */
  function TargetSelector(height: string, muxed: bool): string {
    if muxed then "best" + Cap(height) else "bestvideo" + Cap(height) + "+bestaudio/best" + Cap(height)
  }

  /** `buildPresets`: fixed audio and video presets, and one target per
      height. Each target is the unrestricted choice under a height cap: with
      muxed files, `best_muxed` capped; without, the separate video capped,
      the audio, and the capped single file as fallback. */
  function BuildPresets(formats: seq<Format>): (p: Presets)
    ensures p.best_audio == "bestaudio" && p.best_video == "bestvideo"
    ensures p.best_muxed == "best" || p.best_muxed == "bestvideo+bestaudio"
    ensures |p.targets| == |TargetHeights|
    ensures forall k :: 0 <= k < |p.targets| ==> p.targets[k].key == TargetHeights[k] + "p"
    ensures forall k :: 0 <= k < |p.targets| ==>
              p.targets[k].selector ==
                if p.best_muxed == "best" then p.best_muxed + Cap(TargetHeights[k])
                else "bestvideo" + Cap(TargetHeights[k]) + "+bestaudio/best" + Cap(TargetHeights[k])
  {
    var muxed := HasMuxed(formats);
    Presets("bestaudio", "bestvideo", if muxed then "best" else "bestvideo+bestaudio",
            seq(|TargetHeights|, k requires 0 <= k < |TargetHeights| =>
              Target(TargetHeights[k] + "p", TargetSelector(TargetHeights[k], muxed))))
  }

  /** `best_muxed` is `"best"` exactly when some format carries both audio
      and video. */
  lemma BestMuxedIff(formats: seq<Format>)
    ensures BuildPresets(formats).best_muxed == "best" <==>
              exists k :: 0 <= k < |formats| && IsMuxed(formats[k])
  {
    HasMuxedIff(formats);
  }

  /** Example: an empty list has no muxed format, so `best_muxed` falls
      back to the separate streams. */
  lemma EmptyListPresets()
    ensures BuildPresets([]).best_muxed == "bestvideo+bestaudio"
  {
  }

  /** Every character is one a format selector may hold. */
  predicate FormatText(s: string) {
    forall k :: 0 <= k < |s| ==> IsFormatChar(s[k])
  }

  lemma FormatTextConcat(a: string, b: string)
    requires FormatText(a) && FormatText(b)
    ensures FormatText(a + b)
  {
  }

  /** The listed heights are short runs of digits. */
  lemma HeightsAreDigits()
    ensures forall k :: 0 <= k < |TargetHeights| ==> |TargetHeights[k]| <= 4 && FormatText(TargetHeights[k])
  {
    assert FormatText("144") && FormatText("360") && FormatText("720") && FormatText("1080");
  }

  /** A height cap is format text of ten characters plus the height. */
  lemma CapIsFormatText(height: string)
    requires FormatText(height)
    ensures FormatText(Cap(height)) && |Cap(height)| == 10 + |height|
  {
    assert FormatText("[height<=") && FormatText("]");
    FormatTextConcat("[height<=", height);
    FormatTextConcat("[height<=" + height, "]");
  }

  /** A target selector for a height of at most four digits is a valid
      format selector. */
  lemma SelectorIsValid(height: string, muxed: bool)
    requires FormatText(height) && |height| <= 4
    ensures ValidateFormat(TargetSelector(height, muxed)).Ok?
  {
    CapIsFormatText(height);
    var c := Cap(height);
    assert FormatText("best") && FormatText("bestvideo") && FormatText("+bestaudio/best");
    if muxed {
      FormatTextConcat("best", c);
    } else {
      FormatTextConcat("bestvideo", c);
      FormatTextConcat("bestvideo" + c, "+bestaudio/best");
      FormatTextConcat("bestvideo" + c + "+bestaudio/best", c);
    }
  }

  /** The fixed selectors are valid format selectors. */
  lemma FixedSelectorsValid()
    ensures ValidateFormat("bestaudio").Ok? && ValidateFormat("bestvideo").Ok?
    ensures ValidateFormat("best").Ok? && ValidateFormat("bestvideo+bestaudio").Ok?
  {
    assert FormatText("bestaudio") && FormatText("bestvideo");
    assert FormatText("best") && FormatText("+bestaudio");
    FormatTextConcat("bestvideo", "+bestaudio");
  }

  /** Every selector the presets offer passes the format validation, so a
      client can hand any of them back to the download routes. */
  lemma PresetsAreValidFormats(formats: seq<Format>)
    ensures var p := BuildPresets(formats);
            ValidateFormat(p.best_audio).Ok? && ValidateFormat(p.best_video).Ok?
            && ValidateFormat(p.best_muxed).Ok?
            && forall k :: 0 <= k < |p.targets| ==> ValidateFormat(p.targets[k].selector).Ok?
  {
    var p := BuildPresets(formats);
    var muxed := HasMuxed(formats);
    FixedSelectorsValid();
    HeightsAreDigits();
    forall k | 0 <= k < |p.targets| ensures ValidateFormat(p.targets[k].selector).Ok? {
      assert p.targets[k].selector == TargetSelector(TargetHeights[k], muxed);
      SelectorIsValid(TargetHeights[k], muxed);
    }
  }
}
