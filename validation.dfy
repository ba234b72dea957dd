/** Request validation (src/lib/validation.ts): a video id and a format
    selector are either returned unchanged or rejected with a fixed message. */
module Validation {
  import opened Common

  const InvalidVideoId := "Invalid video id format."
  const InvalidFormat := "Invalid format selector."

  /** A YouTube video id has exactly this many characters. */
  const VideoIdLength := 11
  /** Longest format selector accepted. */
  const MaxFormatLength := 200

  /** The character class `[A-Za-z0-9_-]`. */
  predicate IsVideoIdChar(c: char) {
    ('A' <= c <= 'Z') || ('a' <= c <= 'z') || ('0' <= c <= '9') || c == '_' || c == '-'
  }

  /** The character class `[A-Za-z0-9_+*\-.,:/\[\]<>=%]`. */
  predicate IsFormatChar(c: char) {
    ('A' <= c <= 'Z') || ('a' <= c <= 'z') || ('0' <= c <= '9')
    || c == '_' || c == '+' || c == '*' || c == '-' || c == '.' || c == ','
    || c == ':' || c == '/' || c == '[' || c == ']' || c == '<' || c == '>'
    || c == '=' || c == '%'
  }

  /** Characters that would let a value escape a double-quoted shell word or
      start a new command or header line. */
  const ShellSpecials := " \"'`$;&|\\\n\r"

  /** `validateVideoId`: the regular expression `^[A-Za-z0-9_-]{11}$` is
      anchored at both ends, so the whole id must be 11 characters of the
      class. */
  function ValidateVideoId(videoId: string): (r: Result<string>)
    ensures r.Ok? ==> r.value == videoId
    ensures r.Err? ==> r.error == InvalidVideoId
    ensures r.Ok? ==> |videoId| == VideoIdLength
    ensures r.Ok? <==> |videoId| == VideoIdLength && forall k :: 0 <= k < |videoId| ==> IsVideoIdChar(videoId[k])
  {
    if |videoId| == VideoIdLength && forall k :: 0 <= k < |videoId| ==> IsVideoIdChar(videoId[k])
    then Ok(videoId)
    else Err(InvalidVideoId)
  }

  /** `validateFormat`: the empty string is falsy, more than 200 characters is
      too long, and `^[...]+$` demands at least one character, all from the
      class. */
  function ValidateFormat(format: string): (r: Result<string>)
    ensures r.Ok? ==> r.value == format
    ensures r.Err? ==> r.error == InvalidFormat
    ensures |format| == 0 || |format| > MaxFormatLength ==> r.Err?
    ensures r.Ok? <==> 1 <= |format| <= MaxFormatLength && forall k :: 0 <= k < |format| ==> IsFormatChar(format[k])
  {
    if |format| == 0 || |format| > MaxFormatLength || !(forall k :: 0 <= k < |format| ==> IsFormatChar(format[k]))
    then Err(InvalidFormat)
    else Ok(format)
  }

  /** Neither validator lets through anything a shell or a header would
      interpret: no space, quote, backquote, `$`, `;`, `&`, `|`, backslash or
      line break. */
  lemma AcceptedIsShellSafe(s: string)
    requires ValidateVideoId(s).Ok? || ValidateFormat(s).Ok?
    ensures forall c :: c in s ==> c !in ShellSpecials
  {
  }

  /** Characters with a meaning inside a URL. */
  const UrlSpecials := "&#?/%=+"

  /** An accepted id can be appended to `https://www.youtube.com/watch?v=`
      without adding a parameter, a fragment or a path segment. */
  lemma AcceptedVideoIdIsUrlSafe(s: string)
    requires ValidateVideoId(s).Ok?
    ensures forall c :: c in s ==> c !in UrlSpecials
  {
  }

  /** Every accepted video id is also accepted as a format selector. */
  lemma VideoIdIsFormat(s: string)
    requires ValidateVideoId(s).Ok?
    ensures ValidateFormat(s).Ok?
  {
  }
}
