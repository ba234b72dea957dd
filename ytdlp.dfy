/** The wrapper around the `yt-dlp` executable (src/lib/ytdlp.ts): the
    argument lists handed to it, the interpretation of what it leaves on
    its output streams, and the mapping of failures to HTTP statuses. */
module Ytdlp {
  import opened Common
  import opened Strings

  const NotFoundMessage := "yt-dlp not found. Install it and set YTDLP_PATH."
  const InfoFailed := "yt-dlp failed to fetch info"
  const UrlsFailed := "yt-dlp failed to resolve stream URL"

  // ---------------------------------------------------------------------------
  // running the executable

  /** What a finished child process left: everything written on each stream
      and its exit code, `null` when a signal ended it. */
  datatype SpawnResult = SpawnResult(stdout: string, stderr: string, exitCode: Option<int>)

  /** How an attempt to run the executable ended: it could not be started
      (with the system's error code and message), or it ran and closed. */
  datatype SpawnOutcome = StartFailed(code: string, message: string) | Closed(result: SpawnResult)

  /** `runYtDlp`: a missing executable becomes an error with a fixed message,
      any other start failure passes through, a closed process resolves with
      its streams and exit code whatever that code is. */
  function RunYtDlp(outcome: SpawnOutcome): (r: Result<SpawnResult>)
    ensures r.Ok? <==> outcome.Closed?
    ensures r.Ok? ==> r.value == outcome.result
    ensures r.Err? && outcome.code == "ENOENT" ==> r.error == NotFoundMessage
    ensures r.Err? && outcome.code != "ENOENT" ==> r.error == outcome.message
  {
    match outcome
    case StartFailed(code, message) =>
      if code == "ENOENT" then Err(NotFoundMessage) else Err(message)
    case Closed(result) => Ok(result)
  }

  // ---------------------------------------------------------------------------
  // argument lists and how yt-dlp reads them

  /** One item of a command line as an option parser sees it. */
  datatype Arg = Switch(name: string) | Valued(name: string, value: string) | Operand(value: string)

  /** The options used here that consume the next word as their value. */
  predicate TakesValue(a: string) {
    a == "--cookies" || a == "--add-header" || a == "-f" || a == "--merge-output-format" || a == "-o"
  }

  /** The options used here that stand alone. */
  predicate IsSwitch(a: string) {
    a == "-J" || a == "-g" || a == "--no-warnings"
  }

  /** A word that is not an option: it does not start with `-`. */
  predicate IsOperand(a: string) {
    |a| == 0 || a[0] != '-'
  }

  function Prepend(a: Arg, rest: Option<seq<Arg>>): Option<seq<Arg>> {
    if rest.None? then None else Some([a] + rest.value)
  }

  /** The reading of a command line by yt-dlp's option parser, restricted to
      the options above: a value option takes the next word whatever it
      looks like, an unknown option or a value option without a value is
      an error. */
  function ReadArgs(args: seq<string>): (r: Option<seq<Arg>>)
    decreases |args|
  {
    if |args| == 0 then Some([])
    else if TakesValue(args[0]) then
      if |args| == 1 then None else Prepend(Valued(args[0], args[1]), ReadArgs(args[2..]))
    else if IsSwitch(args[0]) then Prepend(Switch(args[0]), ReadArgs(args[1..]))
    else if IsOperand(args[0]) then Prepend(Operand(args[0]), ReadArgs(args[1..]))
    else None
  }

  /** A value option reads its value and leaves the rest to be read. */
  lemma ReadValued(f: string, v: string, rest: seq<string>, tail: seq<Arg>)
    requires TakesValue(f) && ReadArgs(rest) == Some(tail)
    ensures ReadArgs([f, v] + rest) == Some([Valued(f, v)] + tail)
  {
    assert ([f, v] + rest)[2..] == rest;
  }

  lemma ReadSwitch(f: string, rest: seq<string>, tail: seq<Arg>)
    requires IsSwitch(f) && ReadArgs(rest) == Some(tail)
    ensures ReadArgs([f] + rest) == Some([Switch(f)] + tail)
  {
    assert ([f] + rest)[1..] == rest;
  }

  lemma ReadOperand(a: string)
    requires IsOperand(a)
    ensures ReadArgs([a]) == Some([Operand(a)])
  {
    assert !TakesValue(a) && !IsSwitch(a);
    assert [a][1..] == [];
    assert [Operand(a)] + [] == [Operand(a)];
  }

  /** The value of the `--add-header` option carrying the cookies. */
  function CookieHeaderArg(cookieHeader: string): string {
    "Cookie: " + cookieHeader
  }

  /** The page of a video, as the routes build it from a validated id. */
  function WatchUrl(videoId: string): string {
    "https://www.youtube.com/watch?v=" + videoId
  }

  /** A watch page address is never mistaken for an option. */
  lemma WatchUrlIsOperand(videoId: string)
    ensures IsOperand(WatchUrl(videoId))
  {
  }

  /** The command line of `getVideoInfo`. */
  function InfoArgs(cookiePath: string, cookieHeader: string, url: string): (args: seq<string>)
    ensures |args| == 7 && args[6] == url
  {
    ["-J", "--no-warnings", "--cookies", cookiePath, "--add-header", CookieHeaderArg(cookieHeader), url]
  }

  /** yt-dlp is asked for the JSON description of exactly `url`, without
      warnings, with the cookie file and the cookie header, whatever the
      cookie path and header contain. */
  lemma InfoArgsRead(cookiePath: string, cookieHeader: string, url: string)
    requires IsOperand(url)
    ensures ReadArgs(InfoArgs(cookiePath, cookieHeader, url)) ==
              Some([Switch("-J"), Switch("--no-warnings"), Valued("--cookies", cookiePath),
                    Valued("--add-header", CookieHeaderArg(cookieHeader)), Operand(url)])
  {
    var h := CookieHeaderArg(cookieHeader);
    var t4 := ["--add-header", h] + [url];
    var t2 := ["--cookies", cookiePath] + t4;
    var t1 := ["--no-warnings"] + t2;
    assert InfoArgs(cookiePath, cookieHeader, url) == ["-J"] + t1;
    var a4 := [Valued("--add-header", h)] + [Operand(url)];
    var a2 := [Valued("--cookies", cookiePath)] + a4;
    var a1 := [Switch("--no-warnings")] + a2;
    ReadOperand(url);
    ReadValued("--add-header", h, [url], [Operand(url)]);
    ReadValued("--cookies", cookiePath, t4, a4);
    ReadSwitch("--no-warnings", t2, a2);
    ReadSwitch("-J", t1, a1);
    assert [Switch("-J")] + a1 == [Switch("-J"), Switch("--no-warnings"), Valued("--cookies", cookiePath),
                                   Valued("--add-header", h), Operand(url)];
  }

  /** The command line of `getDirectUrls`. */
  function DirectUrlArgs(cookiePath: string, cookieHeader: string, url: string, format: string): (args: seq<string>)
    ensures |args| == 8 && args[7] == url
  {
    ["-g", "--cookies", cookiePath, "--add-header", CookieHeaderArg(cookieHeader), "-f", format, url]
  }

  /** yt-dlp is asked to print the stream addresses of exactly `url` in the
      requested format, even when the format selector itself starts with
      `-`. */
  lemma DirectUrlArgsRead(cookiePath: string, cookieHeader: string, url: string, format: string)
    requires IsOperand(url)
    ensures ReadArgs(DirectUrlArgs(cookiePath, cookieHeader, url, format)) ==
              Some([Switch("-g"), Valued("--cookies", cookiePath),
                    Valued("--add-header", CookieHeaderArg(cookieHeader)), Valued("-f", format), Operand(url)])
  {
    var h := CookieHeaderArg(cookieHeader);
    var t5 := ["-f", format] + [url];
    var t3 := ["--add-header", h] + t5;
    var t1 := ["--cookies", cookiePath] + t3;
    assert DirectUrlArgs(cookiePath, cookieHeader, url, format) == ["-g"] + t1;
    var a5 := [Valued("-f", format)] + [Operand(url)];
    var a3 := [Valued("--add-header", h)] + a5;
    var a1 := [Valued("--cookies", cookiePath)] + a3;
    ReadOperand(url);
    ReadValued("-f", format, [url], [Operand(url)]);
    ReadValued("--add-header", h, t5, a5);
    ReadValued("--cookies", cookiePath, t3, a3);
    ReadSwitch("-g", t1, a1);
    assert [Switch("-g")] + a1 == [Switch("-g"), Valued("--cookies", cookiePath),
                                   Valued("--add-header", h), Valued("-f", format), Operand(url)];
  }

  /** What a download asks of yt-dlp: cookies, header and format, the mp4
      container when merging, the whole file on standard output, then the
      page. */
  function DownloadRequest(cookiePath: string, cookieHeader: string, url: string, format: string, merge: bool): seq<Arg> {
    [Valued("--cookies", cookiePath), Valued("--add-header", CookieHeaderArg(cookieHeader)), Valued("-f", format)]
    + (if merge then [Valued("--merge-output-format", "mp4")] else [])
    + [Valued("-o", "-"), Operand(url)]
  }

  /** The command line `spawnDownload` builds: six fixed words, two more
      pushed when merging, then `-o - url` pushed at the end. */
  method SpawnDownloadArgs(cookiePath: string, cookieHeader: string, url: string, format: string, merge: bool)
    returns (args: seq<string>)
    requires IsOperand(url)
    ensures |args| == (if merge then 11 else 9)
    ensures args[..6] == ["--cookies", cookiePath, "--add-header", CookieHeaderArg(cookieHeader), "-f", format]
    ensures args[|args| - 3..] == ["-o", "-", url]
    ensures ReadArgs(args) == Some(DownloadRequest(cookiePath, cookieHeader, url, format, merge))
  {
    var h := CookieHeaderArg(cookieHeader);
    args := ["--cookies", cookiePath, "--add-header", h, "-f", format];
    if merge {
      args := args + ["--merge-output-format", "mp4"];
    }
    args := args + ["-o", "-", url];
    DownloadArgsRead(cookiePath, h, url, format, merge, args);
  }

  lemma DownloadArgsRead(cookiePath: string, h: string, url: string, format: string, merge: bool, args: seq<string>)
    requires IsOperand(url)
    requires args == ["--cookies", cookiePath, "--add-header", h, "-f", format]
                     + (if merge then ["--merge-output-format", "mp4"] else []) + ["-o", "-", url]
    ensures ReadArgs(args) ==
              Some([Valued("--cookies", cookiePath), Valued("--add-header", h), Valued("-f", format)]
                   + (if merge then [Valued("--merge-output-format", "mp4")] else [])
                   + [Valued("-o", "-"), Operand(url)])
  {
    var head := ["--cookies", cookiePath, "--add-header", h, "-f", format];
    var rhead := [Valued("--cookies", cookiePath), Valued("--add-header", h), Valued("-f", format)];
    var tail := ["-o", "-", url];
    var rtail := [Valued("-o", "-"), Operand(url)];
    ReadTail(url);
    if merge {
      var m := ["--merge-output-format", "mp4"];
      var rm := [Valued("--merge-output-format", "mp4")];
      ReadValued(m[0], m[1], tail, rtail);
      ReadHead(cookiePath, h, format, m + tail, rm + rtail);
      assert args == head + (m + tail);
      assert rhead + rm + rtail == rhead + (rm + rtail);
    } else {
      ReadHead(cookiePath, h, format, tail, rtail);
      assert args == head + tail;
      assert rhead + [] + rtail == rhead + rtail;
    }
  }

  /** The fixed start of a download command line reads as its three options
      whatever follows. */
  lemma ReadHead(cookiePath: string, h: string, format: string, rest: seq<string>, tail: seq<Arg>)
    requires ReadArgs(rest) == Some(tail)
    ensures ReadArgs(["--cookies", cookiePath, "--add-header", h, "-f", format] + rest) ==
              Some([Valued("--cookies", cookiePath), Valued("--add-header", h), Valued("-f", format)] + tail)
  {
    var t4 := ["-f", format] + rest;
    var t2 := ["--add-header", h] + t4;
    assert ["--cookies", cookiePath, "--add-header", h, "-f", format] + rest == ["--cookies", cookiePath] + t2;
    ReadValued("-f", format, rest, tail);
    ReadValued("--add-header", h, t4, [Valued("-f", format)] + tail);
    ReadValued("--cookies", cookiePath, t2, [Valued("--add-header", h)] + ([Valued("-f", format)] + tail));
    assert [Valued("--cookies", cookiePath)] + ([Valued("--add-header", h)] + ([Valued("-f", format)] + tail))
           == [Valued("--cookies", cookiePath), Valued("--add-header", h), Valued("-f", format)] + tail;
  }

  /** `-o - url`: the output goes to standard output and the page is the
      operand. */
  lemma ReadTail(url: string)
    requires IsOperand(url)
    ensures ReadArgs(["-o", "-", url]) == Some([Valued("-o", "-"), Operand(url)])
  {
    ReadOperand(url);
    ReadValued("-o", "-", [url], [Operand(url)]);
    assert ["-o", "-", url] == ["-o", "-"] + [url];
    assert [Valued("-o", "-")] + [Operand(url)] == [Valued("-o", "-"), Operand(url)];
  }

  // ---------------------------------------------------------------------------
  // interpreting the result

  /** `getVideoInfo` once the process has run: a start failure propagates,
      any exit code but 0 (a signal included) throws standard error or a
      fixed message when that is empty, and a clean exit yields the JSON
      text on standard output (its parsing is not part of this model). */
  function GetVideoInfo(run: Result<SpawnResult>): (r: Result<string>)
    ensures run.Err? ==> r == Err(run.error)
    ensures r.Ok? <==> run.Ok? && run.value.exitCode == Some(0)
    ensures r.Ok? ==> r.value == run.value.stdout
    ensures run.Ok? && r.Err? ==>
              r.error == (if run.value.stderr != "" then run.value.stderr else InfoFailed)
  {
    match run
    case Err(e) => Err(e)
    case Ok(res) =>
      if res.exitCode != Some(0) then Err(if res.stderr != "" then res.stderr else InfoFailed)
      else Ok(res.stdout)
  }

  /** A failed run never yields an empty error message unless the start
      failure itself carried one. */
  lemma InfoErrorNonEmpty(run: Result<SpawnResult>)
    requires run.Err? ==> run.error != ""
    ensures GetVideoInfo(run).Err? ==> GetVideoInfo(run).error != ""
  {
  }

  /** One line of `-g` output: trimmed, dropped when blank. */
  function TrimLine(line: string): (r: Option<string>)
    ensures r.None? <==> Trim(line) == ""
    ensures r.Some? ==> r.value == Trim(line)
    ensures r.Some? ==> r.value != "" && IsTrimmed(r.value)
    ensures r.Some? ==> forall c :: c !in line ==> c !in r.value
  {
    var t := Trim(line);
    forall c | c !in line ensures c !in t { TrimAvoids(line, c); }
    if t == "" then None else Some(t)
  }

  /** `stdout.split("\n").map(trim).filter(Boolean)`. */
  function OutputLines(stdout: string): (urls: seq<string>)
    ensures forall k :: 0 <= k < |urls| ==> urls[k] != "" && IsTrimmed(urls[k]) && '\n' !in urls[k]
  {
    var lines := Split(stdout, '\n');
    TrimLinesClean(lines);
    FilterMap(TrimLine, lines)
  }

  lemma {:induction false} TrimLinesClean(lines: seq<string>)
    requires forall k :: 0 <= k < |lines| ==> '\n' !in lines[k]
    ensures forall k :: 0 <= k < |FilterMap(TrimLine, lines)| ==>
              FilterMap(TrimLine, lines)[k] != "" && IsTrimmed(FilterMap(TrimLine, lines)[k])
              && '\n' !in FilterMap(TrimLine, lines)[k]
    decreases |lines|
  {
    if |lines| > 0 {
      TrimLinesClean(lines[1..]);
    }
  }

  /** For any output, a URL is reported exactly when it is the non-empty
      trimmed text of one of stdout's lines. */
  lemma OutputLinesIff(stdout: string, url: string)
    ensures url in OutputLines(stdout) ==> url != ""
    ensures url in OutputLines(stdout) ==> exists k :: 0 <= k < |Split(stdout, '\n')| && Trim(Split(stdout, '\n')[k]) == url
    ensures (url != "" && exists k :: 0 <= k < |Split(stdout, '\n')| && Trim(Split(stdout, '\n')[k]) == url) ==> url in OutputLines(stdout)
  {
    var lines := Split(stdout, '\n');
    assert OutputLines(stdout) == FilterMap(TrimLine, lines);
    TrimLinesIff(lines, url);
  }

  lemma TrimLinesIff(lines: seq<string>, url: string)
    ensures url in FilterMap(TrimLine, lines) <==> url != "" && exists k :: 0 <= k < |lines| && Trim(lines[k]) == url
  {
    var f: string -> Option<string> := TrimLine;
    FilterMapIn(f, lines, url);
    if url in FilterMap(f, lines) {
      var k :| 0 <= k < |lines| && f(lines[k]) == Some(url);
      assert Trim(lines[k]) == url;
    }
    if url != "" && exists k :: 0 <= k < |lines| && Trim(lines[k]) == url {
      var k :| 0 <= k < |lines| && Trim(lines[k]) == url;
      assert f(lines[k]) == Some(url);
    }
  }

  /** Lines already trimmed and not blank come through unchanged. */
  lemma {:induction false} TrimLinesKeep(urls: seq<string>)
    requires forall k :: 0 <= k < |urls| ==> urls[k] != "" && IsTrimmed(urls[k])
    ensures FilterMap(TrimLine, urls) == urls
    decreases |urls|
  {
    if |urls| > 0 {
      TrimLinesKeep(urls[1..]);
      TrimOfTrimmed(urls[0]);
    }
  }

  lemma TrimOfTrimmed(s: string)
    requires IsTrimmed(s)
    ensures Trim(s) == s
  {
    TrimAfterSpaces("", s);
  }

  /** Reading the output of yt-dlp printing each address on a line of its
      own gives back the addresses, in order. */
  lemma OutputLinesRoundTrip(urls: seq<string>)
    requires forall k :: 0 <= k < |urls| ==> urls[k] != "" && IsTrimmed(urls[k]) && '\n' !in urls[k]
    ensures OutputLines(Join(urls + [""], "\n")) == urls
  {
    var lines := urls + [""];
    assert forall k :: 0 <= k < |lines| ==> '\n' !in lines[k];
    SplitJoin(lines, '\n');
    FilterMapConcat(TrimLine, urls, [""]);
    TrimLinesKeep(urls);
    assert FilterMap(TrimLine, [""]) == [];
  }

  /** `getDirectUrls` once the process has run: the same failure rules as
      `getVideoInfo` with their own fixed message, and on success the
      non-blank trimmed lines of standard output. */
  function GetDirectUrls(run: Result<SpawnResult>): (r: Result<seq<string>>)
    ensures run.Err? ==> r == Err(run.error)
    ensures r.Ok? <==> run.Ok? && run.value.exitCode == Some(0)
    ensures r.Ok? ==> r.value == OutputLines(run.value.stdout)
    ensures run.Ok? && r.Err? ==>
              r.error == (if run.value.stderr != "" then run.value.stderr else UrlsFailed)
  {
    match run
    case Err(e) => Err(e)
    case Ok(res) =>
      if res.exitCode != Some(0) then Err(if res.stderr != "" then res.stderr else UrlsFailed)
      else Ok(OutputLines(res.stdout))
  }

  // ---------------------------------------------------------------------------
  // mapping failures to responses

  const NotInstalled := "yt-dlp is not installed on the server."
  const PrivateVideo := "Video is private or requires login."
  const Unavailable := "Video is unavailable."
  const ProxyBlocked := "Upstream request blocked by proxy."
  const RequestFailed := "yt-dlp request failed."

  datatype Mapped = Mapped(status: int, message: string)

  /** `mapYtdlpError`: the lowered message is tested against the phrases in
      a fixed order and the first match decides. */
  function MapYtdlpError(error: string): (r: Mapped)
    ensures r.status in {403, 500, 502}
    ensures r.status == 403 <==> r.message == PrivateVideo
    ensures r.message in {NotInstalled, PrivateVideo, Unavailable, ProxyBlocked, RequestFailed}
  {
    var message := LowerAscii(error);
    if Includes(message, "yt-dlp not found") then Mapped(500, NotInstalled)
    else if Includes(message, "private") || Includes(message, "sign in") then Mapped(403, PrivateVideo)
    else if Includes(message, "unavailable") then Mapped(502, Unavailable)
    else if Includes(message, "proxy") || Includes(message, "tunnel") then Mapped(502, ProxyBlocked)
    else Mapped(500, RequestFailed)
  }

  /** A rule of the classification: any of its phrases selects its
      response. */
  datatype Rule = Rule(phrases: seq<string>, response: Mapped)

  const Rules: seq<Rule> := [
    Rule(["yt-dlp not found"], Mapped(500, NotInstalled)),
    Rule(["private", "sign in"], Mapped(403, PrivateVideo)),
    Rule(["unavailable"], Mapped(502, Unavailable)),
    Rule(["proxy", "tunnel"], Mapped(502, ProxyBlocked))
  ]

  predicate Matches(message: string, rule: Rule) {
    exists k :: 0 <= k < |rule.phrases| && Includes(message, rule.phrases[k])
  }

  /** The response of the first rule matching the message, the generic
      failure when none does. */
  function FirstMatch(message: string, rules: seq<Rule>): Mapped
    decreases |rules|
  {
    if |rules| == 0 then Mapped(500, RequestFailed)
    else if Matches(message, rules[0]) then rules[0].response
    else FirstMatch(message, rules[1..])
  }

  lemma MatchesTwo(message: string, a: string, b: string, m: Mapped)
    ensures Matches(message, Rule([a, b], m)) <==> Includes(message, a) || Includes(message, b)
  {
    var r := Rule([a, b], m);
    if Includes(message, a) { assert Includes(message, r.phrases[0]); }
    if Includes(message, b) { assert Includes(message, r.phrases[1]); }
  }

  lemma MatchesOne(message: string, a: string, m: Mapped)
    ensures Matches(message, Rule([a], m)) <==> Includes(message, a)
  {
    var r := Rule([a], m);
    if Includes(message, a) { assert Includes(message, r.phrases[0]); }
  }

  /** The chain of tests is the first-match classification of the lowered
      message by the rule table. */
  lemma MapIsFirstMatch(error: string)
    ensures MapYtdlpError(error) == FirstMatch(LowerAscii(error), Rules)
  {
    var m := LowerAscii(error);
    MatchesOne(m, "yt-dlp not found", Mapped(500, NotInstalled));
    MatchesTwo(m, "private", "sign in", Mapped(403, PrivateVideo));
    MatchesOne(m, "unavailable", Mapped(502, Unavailable));
    MatchesTwo(m, "proxy", "tunnel", Mapped(502, ProxyBlocked));
    var r1 := Rules[1..];
    var r2 := r1[1..];
    var r3 := r2[1..];
    var r4 := r3[1..];
    assert r4 == [];
    assert FirstMatch(m, r3) == if Matches(m, r3[0]) then r3[0].response else FirstMatch(m, r4);
    assert FirstMatch(m, r2) == if Matches(m, r2[0]) then r2[0].response else FirstMatch(m, r3);
    assert FirstMatch(m, r1) == if Matches(m, r1[0]) then r1[0].response else FirstMatch(m, r2);
  }

  /** Letter case does not matter. */
  lemma MapIgnoresCase(error: string)
    ensures MapYtdlpError(LowerAscii(error)) == MapYtdlpError(error)
  {
    LowerIdempotent(error);
  }

  /** Example: an empty message, as the routes pass when the error has none,
      matches no rule and is the generic failure. */
  lemma MapEmpty()
    ensures MapYtdlpError("") == Mapped(500, RequestFailed)
  {
    assert LowerAscii("") == "";
  }

  /** A missing executable, detected when starting it, reaches the client as
      a 500 saying yt-dlp is not installed, whatever the system message. */
  lemma MissingExecutableReported(message: string)
    ensures MapYtdlpError(RunYtDlp(StartFailed("ENOENT", message)).error) == Mapped(500, NotInstalled)
  {
    NotFoundLowered();
  }

  lemma NotFoundLowered()
    ensures Includes(LowerAscii(NotFoundMessage), "yt-dlp not found")
  {
    var m := LowerAscii(NotFoundMessage);
    var pat := "yt-dlp not found";
    assert forall k :: 0 <= k < |pat| ==> m[k] == pat[k];
    assert m[..|pat|] == pat;
    assert OccursAt(m, pat, 0);
    IncludesIff(m, pat);
  }
}
