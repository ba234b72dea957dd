# yt-api: proxy pool, retry executor and request helpers, in Dafny

This project models the core of a small HTTP API that wraps the `yt-dlp`
executable. It proves properties of that model. The model has two parts.

- **The proxy pool and the executor that uses it.**
  - `ProxyManager` keeps these fields:
    - a deduplicated list of candidate `ipv4:port` proxies harvested from five public lists;
    - a list of candidates that passed a probe;
    - a round-robin cursor over that list;
    - the time of the last download;
    - whether proxies are enabled.
  - `executeWithProxy` runs a `yt-dlp` command line:
    - up to three attempts through proxies from the pool;
    - a failed proxy is demoted, and the pool is searched again when it runs low;
    - a final direct run closes the call.
- **The pure request helpers.**
  - Video-id and format-selector validation.
  - The cookie header and the Netscape cookie file written from it.
  - The `yt-dlp` argument lists and the reading of its output.
  - The mapping of `yt-dlp` failures to HTTP statuses.
  - The format summary and the quality presets of the info route.

Modules, one file each:

| module | file | models |
|---|---|---|
| `Common` | common.dfy | `Option`/`Result`, `indexOf` (`FirstIndex`), `indexOf`+`splice` (`RemoveFirst`), duplicates, filter-map |
| `Strings` | strings.dfy | `split`/`join`, JavaScript `trim`, `includes`, `replace` of the first occurrence, ASCII `toLowerCase`, decimal rendering |
| `Validation` | validation.dfy | src/lib/validation.ts |
| `Cookies` | cookies.dfy | cookie sanitising, pair parsing and the cookie-file text of src/lib/ytdlp.ts |
| `Ytdlp` | ytdlp.dfy | the rest of src/lib/ytdlp.ts |
| `Info` | info.dfy | `summarizeFormats` and `buildPresets` of src/routes/info.ts |
| `ProxyList` | proxy_list.dfy | the parsing, harvesting and deduplication inside `fetchProxies` |
| `ProxyPool` | proxy_pool.dfy | the pool state, one function per operation, and the class `ProxyManager` |
| `Executor` | executor.dfy | `executeWithProxy` of index.js |

## How the stateful code is modelled

Pure functions on the value `PoolState` say what each pool operation does. The
class `ProxyPool.ProxyManager` has the source's fields. Its methods update
them in place. Each method's `ensures` equates its new state, and its result,
with the matching function applied to the old state (`State()`). The
properties are then proved as lemmas about those functions.

The executor works the same way:
- `Executor.Execute` is the whole call as a function.
- `Executor.ExecuteWithProxy` is the procedure, a loop with early returns and a `break`.
- The procedure is proved equal to `Execute`, run for run.

The outside world enters as inputs:
- `Env` gives the clock, the body or failure of each source, the shuffled order, and the probe verdicts.
- `envs(n)` is the world seen by the `n`-th search of a call.
- `exec(k, command, timeout)` is the answer to the `k`-th command run.

Notes on the code's behaviour, all kept in the model:
- `findWorkingProxies` replaces the working list but never resets `currentIndex` (proxy-manager.js:117). `ProxyPool.FindWorking` keeps the cursor.
- `markProxyBad` never adjusts the cursor either (proxy-manager.js:145-151). The cursor can then lie past the end of a non-empty list, and the next `getNextProxy` yields `undefined`, which `getProxyArg` treats as "no proxy" (proxy-manager.js:140, 155).
  - `ProxyPool.StrandedCursor` shows this on the pool.
  - `Executor.StrandedCursorRunsDirect` shows that a call then runs the command directly although two working proxies remain.
- The shuffle sorts with a random comparator (proxy-manager.js:119). That order is biased, not uniform. The model takes the order as an input and relies only on its being a permutation.
- `USE_PROXY` is read twice, by index.js:7 and by proxy-manager.js:11. Both reads happen when the modules load, so they always agree. The model still takes them as two values: the `useProxy` argument of `Execute` and the pool's `enabled` field. The general lemmas hold for any pool. The lemmas about concrete calls (`Executor.DirectRunTwice`, `Executor.StrandedCursorRunsDirect`) use enabled pools, as the program does.
- `throw lastError || error` (index.js:184) reports the last error recorded in the loop. Every pass either returns or records an error, so the final direct run's own error is never the one reported (`Executor.ExecuteError`).

## Model

| member | source | states |
|---|---|---|
| Common.FirstIndex | proxy-manager.js:146 | `indexOf`: the first position holding `x`, or the length when `x` is absent; no earlier position holds `x` |
| Common.RemoveFirst | proxy-manager.js:145-151 | `markProxyBad`'s splice: when present, the first occurrence is cut out, the length drops by one and the other entries keep their order; when absent, the list is unchanged |
| Common.RemoveFirstMultiset | proxy-manager.js:145-151 | the splice takes exactly one copy of the proxy out of the list's multiset |
| Common.RemoveFirstNoDups | proxy-manager.js:145-151 | on a duplicate-free list the demoted proxy is gone entirely, and every other entry stays |
| Strings.Split | proxy-manager.js:28 | `split` on one character: at least one piece, and no piece holds the separator; its round trips are `Strings.JoinSplit` and `Strings.SplitJoin` |
| Strings.Join | src/lib/ytdlp.ts:52 | `join`: no contract of its own; `Strings.JoinSplit` and `Strings.SplitJoin` state it as the inverse of `Split` |
| Strings.JoinSplit | proxy-manager.js:28 | joining the pieces of a split with the separator gives the text back |
| Strings.SplitJoin | src/lib/ytdlp.ts:44-52 | splitting a join of separator-free pieces gives the pieces back |
| Strings.Trim | proxy-manager.js:29 | `trim` gives a text with no white space at either end, no longer than the input |
| Strings.TrimSurround | src/lib/ytdlp.ts:28 | `trim` removes white space only: the result is a slice surrounded by white space |
| Strings.IndexOf | index.js:162 | the position found holds the pattern, and no earlier position does |
| Strings.Includes | src/lib/ytdlp.ts:171-181 | `includes`: no contract of its own; `Strings.IncludesIff` states when it holds |
| Strings.IncludesIff | src/lib/ytdlp.ts:171 | `includes` holds iff the pattern occurs at some position |
| Strings.ReplaceFirst | index.js:162 | `replace` with a string pattern: no contract of its own; `Strings.ReplaceFirstSpec` states what is kept and what is replaced |
| Strings.ReplaceFirstSpec | index.js:162 | `replace` with a string pattern: the input unchanged when the pattern is absent; otherwise the first occurrence, at position `i`, is replaced: `s[..i]` and everything after the occurrence are kept, the replacement sits at `i`, and the length changes by the difference |
| Strings.LowerAscii | src/lib/ytdlp.ts:170 | `toLowerCase` keeps the length, maps each character and leaves no capital letter |
| Strings.LowerIdempotent | src/lib/ytdlp.ts:170 | lowering twice is lowering once |
| Strings.ParseNatToString | src/routes/info.ts:34 | the decimal rendering of a natural number reads back as that number |
| Strings.IntToString | src/routes/info.ts:34 | `${i}`: never empty and never holds the `x` that separates width and height; `Strings.IntToStringRoundTrip` reads it back |
| Strings.IntToStringRoundTrip | src/routes/info.ts:34 | the decimal rendering of any integer, with its sign, reads back as that integer |
| Validation.ValidateVideoId | src/lib/validation.ts:1-9 | accepted iff exactly 11 characters, all from `A-Za-z0-9_-`; the id comes back unchanged; a rejection carries "Invalid video id format." |
| Validation.ValidateFormat | src/lib/validation.ts:2-16 | accepted iff 1 to 200 characters, all from the selector class; rejects the empty and over-long selector; the selector comes back unchanged; a rejection carries "Invalid format selector." |
| Validation.AcceptedIsShellSafe | src/lib/validation.ts:1-2 | an accepted id or selector holds no space, quote, backtick, `$`, `;`, `&`, pipe, backslash or line break |
| Validation.AcceptedVideoIdIsUrlSafe | src/lib/validation.ts:1 | an accepted id holds none of `&#?/%=+`, so it cannot change the watch URL's query |
| Validation.VideoIdIsFormat | src/lib/validation.ts:1-2 | every accepted video id is also an accepted format selector |
| Cookies.Sanitize | src/lib/ytdlp.ts:15-17 | the result holds no carriage return and no line feed, and is no longer than the input |
| Cookies.SanitizeConcat | src/lib/ytdlp.ts:15-17 | sanitising works piecewise: the result of a concatenation is the concatenation of the results |
| Cookies.SanitizeChar | src/lib/ytdlp.ts:16 | a line break is dropped and every other character is kept |
| Cookies.SanitizeUnchanged | src/lib/ytdlp.ts:15-17 | a text without line breaks is left as it is |
| Cookies.SanitizeNoNewChars | src/lib/ytdlp.ts:15-17 | sanitising adds no character |
| Cookies.ParseEntry | src/lib/ytdlp.ts:30-41 | a parsed pair has a non-empty, trimmed name without `=`, and a trimmed value; an entry without `=` gives nothing; `Cookies.ParseEntrySplit` states the result for every entry with an `=` |
| Cookies.ParseEntrySplit | src/lib/ytdlp.ts:31-40 | for any entry `a=b` whose `a` holds no `=`: the name is `a` trimmed and the value `b` trimmed, and a name that trims to nothing gives nothing |
| Cookies.ParseEntryAvoids | src/lib/ytdlp.ts:30-41 | the name and value of a pair come from the entry's characters |
| Cookies.SegmentPair | src/lib/ytdlp.ts:28-41 | one `;`-segment: trimmed, dropped when empty, else parsed by `ParseEntry`; no contract of its own; `Cookies.SegmentsWellFormed` and `Cookies.ParseSegmentsAvoids` state what it yields |
| Cookies.ParseSegments | src/lib/ytdlp.ts:28-42 | no more pairs than segments |
| Cookies.CookiePairs | src/lib/ytdlp.ts:22-42 | every parsed pair is well formed: a non-empty name without `=` or `;`, no line breaks, both parts trimmed |
| Cookies.CookiePairsOf | src/lib/ytdlp.ts:22-42 | the pairs are those of the `;`-separated segments of the sanitised header |
| Cookies.SegmentsWellFormed | src/lib/ytdlp.ts:26-42 | segments free of `;` and line breaks yield only well-formed pairs |
| Cookies.ParseSegmentsAvoids | src/lib/ytdlp.ts:26-42 | a character absent from every segment is absent from every parsed pair |
| Cookies.HeaderRoundTrip | src/lib/ytdlp.ts:26-42 | rendering well-formed pairs as `name=value; …` and parsing the header gives the same pairs in the same order |
| Cookies.RenderNoBreaks | src/lib/ytdlp.ts:15-22 | a rendered header of well-formed pairs needs no sanitising |
| Cookies.CookieLine | src/lib/ytdlp.ts:48 | one Netscape cookie line; no contract of its own; `Cookies.LineFields` states its seven tab-separated fields |
| Cookies.CookieLines | src/lib/ytdlp.ts:46-49 | one line per pair |
| Cookies.LineFields | src/lib/ytdlp.ts:48 | a cookie line splits on tabs into domain, `TRUE`, `/`, `FALSE`, `0`, name and value |
| Cookies.ReadLinesRoundTrip | src/lib/ytdlp.ts:46-49 | reading the cookie lines back gives the pairs in order |
| Cookies.CookieFileText | src/lib/ytdlp.ts:44-52 | the text written to the file; no contract of its own; `Cookies.FileLines` and `Cookies.CookieFileRoundTrip` state its lines and read it back |
| Cookies.FileLines | src/lib/ytdlp.ts:44-52 | the file splits on line feeds into the Netscape header line followed by one line per pair |
| Cookies.CookieFileRoundTrip | src/lib/ytdlp.ts:44-52 | the file text is the header line, then one line per pair in order, with no trailing line feed, so it has pairs + 1 lines; reading it back gives the pairs |
| Cookies.CookieFileFor | src/lib/ytdlp.ts:19-52 | the file text `createCookieFile` writes for a header; no contract of its own; `Cookies.CookieFileForReadsBack` reads it back as the header's pairs |
| Cookies.CookieFileForReadsBack | src/lib/ytdlp.ts:22-52 | for a header without tabs, the file written for it reads back as the header's parsed pairs |
| Ytdlp.RunYtDlp | src/lib/ytdlp.ts:61-93 | a process that closed resolves with its streams and exit code, whatever the code; a missing executable gives the fixed "not found" message; any other start failure passes its message through |
| Ytdlp.CookieHeaderArg | src/lib/ytdlp.ts:107 | the `Cookie: <header>` value of `--add-header`, used at ytdlp.ts lines 107, 129 and 156; no contract of its own; `Ytdlp.InfoArgsRead`, `Ytdlp.DirectUrlArgsRead` and `Ytdlp.DownloadArgsRead` read it back as that option's value |
| Ytdlp.InfoArgs | src/lib/ytdlp.ts:101-109 | seven arguments, the last the URL |
| Ytdlp.InfoArgsRead | src/lib/ytdlp.ts:101-109 | the arguments read as `-J`, `--no-warnings`, `--cookies <path>`, `--add-header "Cookie: <header>"` and the URL |
| Ytdlp.GetVideoInfo | src/lib/ytdlp.ts:110-114 | success iff the exit code is 0, and the output is then stdout; otherwise stderr, or the fixed message when stderr is empty; a spawn error passes through |
| Ytdlp.InfoErrorNonEmpty | src/lib/ytdlp.ts:111-113 | a failure never carries an empty message |
| Ytdlp.DirectUrlArgs | src/lib/ytdlp.ts:124-133 | eight arguments, the last the URL |
| Ytdlp.DirectUrlArgsRead | src/lib/ytdlp.ts:124-133 | the arguments read as `-g`, `--cookies <path>`, `--add-header`, `-f <format>` and the URL |
| Ytdlp.SpawnDownloadArgs | src/lib/ytdlp.ts:152-165 | 11 arguments with merging and 9 without; they open with the cookie, header and format entries, `--merge-output-format mp4` comes only when merging, and they close with `-o - <url>` |
| Ytdlp.DownloadArgsRead | src/lib/ytdlp.ts:152-165 | the argument list reads as cookie, header and format options, the merge option iff merging, output to stdout and the URL |
| Ytdlp.TrimLine | src/lib/ytdlp.ts:140-141 | a line gives nothing iff it trims to nothing; otherwise it gives its trimmed text, which is non-empty, trimmed and holds only characters of the raw line |
| Ytdlp.OutputLines | src/lib/ytdlp.ts:138-141 | every URL is non-empty, trimmed and a single line |
| Ytdlp.OutputLinesIff | src/lib/ytdlp.ts:138-141 | for any stdout, a URL is reported iff it is non-empty and the trimmed text of one of stdout's lines |
| Ytdlp.TrimLinesIff | src/lib/ytdlp.ts:140-141 | for any lines, a value is kept iff it is non-empty and the trimmed text of one of the lines |
| Ytdlp.TrimLinesKeep | src/lib/ytdlp.ts:140-141 | non-empty, trimmed lines pass through unchanged and in order |
| Ytdlp.OutputLinesRoundTrip | src/lib/ytdlp.ts:138-141 | printing URLs one per line, with a trailing line feed, and reading the output gives the URLs back in order |
| Ytdlp.GetDirectUrls | src/lib/ytdlp.ts:134-141 | success iff the exit code is 0 (`null` is a failure), with stdout's trimmed non-empty lines; otherwise stderr, or the fixed message when stderr is empty |
| Ytdlp.MapYtdlpError | src/lib/ytdlp.ts:169-184 | the status is 403, 500 or 502; it is 403 exactly for the private-video message; the message is one of the five fixed ones |
| Ytdlp.MapIsFirstMatch | src/lib/ytdlp.ts:169-184 | the lowered error is classified by the first rule in priority order that matches: not found, private or sign in, unavailable, proxy or tunnel, otherwise a plain failure |
| Ytdlp.MapIgnoresCase | src/lib/ytdlp.ts:170 | the classification does not depend on letter case |
| Ytdlp.MapEmpty | src/lib/ytdlp.ts:183 | example: an empty error matches no rule and is a plain 500 failure |
| Ytdlp.MissingExecutableReported | src/lib/ytdlp.ts:82-84 | a missing executable is reported as 500 "yt-dlp is not installed on the server." |
| Ytdlp.NotFoundLowered | src/lib/ytdlp.ts:83 | the "not found" message still matches its rule once lowered |
| Info.Resolution | src/routes/info.ts:31-35 | a truthy `resolution` is kept; otherwise `<width>x<height>` when both are non-zero; otherwise nothing; a result is never empty |
| Info.DerivedResolutionRoundTrip | src/routes/info.ts:33-34 | a derived resolution reads back as the width and height it came from |
| Info.Summarize | src/routes/info.ts:25-45 | every listed field is copied unchanged, except `resolution`, which follows the resolution rule |
| Info.SummarizeIgnoresOthers | src/routes/info.ts:25-45 | fields outside the summary do not affect it |
| Info.SummarizeIdempotent | src/routes/info.ts:25-45 | summarising a summary changes nothing |
| Info.SummarizeFormats | src/routes/info.ts:24-46 | same length and order; each entry is its format's summary, with `format_id` unchanged |
| Info.SummarizeFormatsIdempotent | src/routes/info.ts:24-46 | summarising a summarised list gives it back |
| Info.OrEmpty | src/routes/info.ts:95 | a missing list is empty, and a present one is used as it is |
| Info.FormatsOf | src/routes/info.ts:87 | a missing `formats` gives an empty summary; otherwise one entry per format |
| Info.IsMuxed | src/routes/info.ts:50 | the `some` callback: both codecs other than `"none"`; no contract of its own; `Info.HasMuxedIff` uses it |
| Info.HasMuxed | src/routes/info.ts:49-51 | `formats.some(…)`; no contract of its own; `Info.HasMuxedIff` states when it holds |
| Info.HasMuxedIff | src/routes/info.ts:49-51 | `hasMuxed` holds iff some format has both codecs other than `"none"` (a missing codec counts as not `"none"`) |
| Info.TargetSelector | src/routes/info.ts:58-69 | one target's selector; no contract of its own; `Info.BuildPresets` states both forms and `Info.SelectorIsValid` shows it passes `validateFormat` |
| Info.BuildPresets | src/routes/info.ts:48-72 | `best_audio` is "bestaudio" and `best_video` is "bestvideo"; `best_muxed` is "best" or "bestvideo+bestaudio"; one target per height 144, 360, 720 and 1080, keyed `<height>p`, whose selector is `best[height<=h]` when `best_muxed` is "best" and otherwise `bestvideo[height<=h]+bestaudio/best[height<=h]` |
| Info.BestMuxedIff | src/routes/info.ts:49-56 | `best_muxed` is "best" iff some format is muxed |
| Info.EmptyListPresets | src/routes/info.ts:49-56 | example: an empty list gives "bestvideo+bestaudio" |
| Info.SelectorIsValid | src/routes/info.ts:57-70 | every target selector passes `validateFormat` |
| Info.PresetsAreValidFormats | src/routes/info.ts:53-70 | every preset the route offers passes `validateFormat` |
| ProxyList.IsProxyAddress | proxy-manager.js:30 | the pattern `^\d+\.\d+\.\d+\.\d+:\d+$`; no contract of its own; `ProxyList.AddressMatches`, `ProxyList.AddressShape` and `ProxyList.AddressCharacters` state what it accepts |
| ProxyList.AddressMatches | proxy-manager.js:30 | four digit runs joined by dots, then a colon and a digit run, match `^\d+\.\d+\.\d+\.\d+:\d+$` |
| ProxyList.AddressShape | proxy-manager.js:30 | every matching line is exactly of that form |
| ProxyList.AddressCharacters | proxy-manager.js:30 | a matching line holds only digits, dots and one colon |
| ProxyList.ProxyLine | proxy-manager.js:29-30 | a line is kept iff its trimmed text matches the pattern, and then the trimmed text is kept |
| ProxyList.ParseProxyList | proxy-manager.js:28-30 | every kept entry matches the pattern |
| ProxyList.ParseProxyListIff | proxy-manager.js:28-30 | an entry is kept iff it is the trimmed text of some line of the body and matches the pattern |
| ProxyList.Contribution | proxy-manager.js:27-35 | what one source adds: its matching lines when the download answered, nothing when it failed; no contract of its own; `ProxyList.HarvestStep` and `ProxyList.HarvestSkipsFailures` use it |
| ProxyList.Harvest | proxy-manager.js:25-36 | everything harvested matches the pattern |
| ProxyList.HarvestStep | proxy-manager.js:25-36 | each source appends what its response contributes, in source order |
| ProxyList.HarvestComplete | proxy-manager.js:25-36 | every matching line of every source that answered is harvested |
| ProxyList.HarvestSkipsFailures | proxy-manager.js:33-35 | when every source fails, nothing is harvested |
| ProxyList.HarvestSound | proxy-manager.js:25-36 | everything harvested is a matching line of a source that answered |
| ProxyList.Dedupe | proxy-manager.js:38 | `[...new Set(…)]`: no duplicates, and exactly the same elements |
| ProxyList.DedupeKeepsFirstOrder | proxy-manager.js:38 | entries appear in the order of their first occurrences |
| ProxyList.DedupeNoDups | proxy-manager.js:38 | a list without duplicates is unchanged |
| ProxyPool.NextProxy | proxy-manager.js:136-143 | an empty list gives nothing and changes nothing; otherwise the entry under the cursor, or nothing when the cursor is past the end; the cursor moves to `(index + 1) % length`, which lies below the length; nothing else changes |
| ProxyPool.NextStep | proxy-manager.js:140-142 | a cursor inside the list gives that entry and steps forward, wrapping to 0 at the end |
| ProxyPool.RotationNoWrap | proxy-manager.js:140-142 | consecutive calls from the cursor give the following entries in list order |
| ProxyPool.RotationCycle | proxy-manager.js:140-142 | from cursor 0, `length` calls give every entry once in list order, and the next call gives the first entry again |
| ProxyPool.MarkBad | proxy-manager.js:145-151 | the working list loses the first occurrence of the proxy, and the cursor and every other field are untouched |
| ProxyPool.StrandedCursor | proxy-manager.js:136-159 | demoting the last of two entries with the cursor on it leaves a non-empty list whose next call yields nothing, so no proxy argument is produced |
| ProxyPool.ProxyOption | proxy-manager.js:156 | `--proxy "http://<proxy>"`; no contract of its own; `ProxyPool.ProxyOptionIsShellSafe` states that an address cannot break its quotes |
| ProxyPool.ProxyArgOf | proxy-manager.js:153-159 | a truthy proxy gives `--proxy "http://<proxy>"` and the proxy; anything else gives `""` and no proxy; the cursor moves as `getNextProxy` moves it |
| ProxyPool.ProxyArgEmptyIff | proxy-manager.js:153-159 | the argument is empty iff no proxy is handed out |
| ProxyPool.ProxyOptionIsShellSafe | proxy-manager.js:156 | a harvested proxy puts no quote, `$`, backtick, backslash, space or line break inside the double-quoted argument |
| ProxyPool.Fetched | proxy-manager.js:14-42 | the candidates become the deduplicated harvest of every source, and the fetch time becomes now even when every source failed; nothing else changes |
| ProxyPool.FetchedCandidates | proxy-manager.js:23-41 | after a download, the candidates are distinct and all match the pattern; a candidate is present iff some source that answered listed it |
| ProxyPool.Passing | proxy-manager.js:122-130 | the candidates whose probe succeeds, in order |
| ProxyPool.Take | proxy-manager.js:123 | a prefix, no longer than the limit |
| ProxyPool.Probe | proxy-manager.js:122-130 | the probing loop as a function; no contract of its own; `ProxyPool.ProbeIsFirstPassing` equates it with the first `count` passing candidates |
| ProxyPool.ProbeIsFirstPassing | proxy-manager.js:122-130 | the probing loop, which stops at `count`, keeps the first `count` candidates whose probe succeeds |
| ProxyPool.ToTest | proxy-manager.js:120 | `slice(0, 100)`: at most 100 candidates, a prefix of the shuffled list |
| ProxyPool.FindWorking | proxy-manager.js:106-134 | a disabled pool gives nothing and changes nothing; an enabled one replaces the working list with the result and keeps the cursor |
| ProxyPool.ProbeResult | proxy-manager.js:117-130 | the probe result is the first `count` passing candidates: at most `count`, at most the number tested, distinct, each a tested candidate whose probe succeeded |
| ProxyPool.FindWorkingResult | proxy-manager.js:112-133 | the search result is the first `count` passing candidates among at most 100 of the (possibly downloaded) candidates in shuffled order: at most min(`count`, 100), distinct, each a candidate whose probe succeeded |
| ProxyPool.DisabledSearch | proxy-manager.js:107-110 | a disabled pool returns `[]` and changes no field |
| ProxyPool.NeedsFetch | proxy-manager.js:112 | the download is due when older than the interval or when there are no candidates; no contract of its own; `ProxyPool.SearchRefetchesWhenDue` states its use |
| ProxyPool.SearchRefetchesWhenDue | proxy-manager.js:112-114 | an enabled search downloads exactly when the last download is older than ten minutes or there are no candidates |
| ProxyPool.InvMarkBad | proxy-manager.js:145-151 | demoting keeps the pool invariant (distinct candidates, each an `ipv4:port` address; distinct working proxies drawn from them) and removes the proxy |
| ProxyPool.InvNext | proxy-manager.js:136-159 | rotating and formatting the argument keep the pool invariant |
| ProxyPool.InvFindWorking | proxy-manager.js:106-134 | a search keeps the pool invariant, whatever order the shuffle produces |
| ProxyPool.ProxyManager.constructor | proxy-manager.js:5-12 | empty lists, cursor 0, no download yet, enabled iff `USE_PROXY` is `"true"` |
| ProxyPool.ProxyManager.GetNextProxy | proxy-manager.js:136-143 | the result and new fields are those of `NextProxy` on the old fields |
| ProxyPool.ProxyManager.MarkProxyBad | proxy-manager.js:145-151 | the new fields are those of `MarkBad` on the old fields |
| ProxyPool.ProxyManager.GetProxyArg | proxy-manager.js:153-159 | the result and new fields are those of `ProxyArgOf` on the old fields |
| ProxyPool.ProxyManager.FetchProxies | proxy-manager.js:14-42 | the new fields are those of `Fetched`, and the candidates are returned |
| ProxyPool.ProxyManager.ProbeInto | proxy-manager.js:122-130 | the working list becomes what the probing loop builds; the other fields are untouched |
| ProxyPool.ProxyManager.FindWorkingProxies | proxy-manager.js:106-134 | the result and new fields are those of `FindWorking` on the old fields |
| Executor.Proxied | index.js:162 | the proxied command line; no contract of its own; `Executor.ProxiedHasOption` states where the option goes and what is kept |
| Executor.ProxiedHasOption | index.js:162 | when the command names `yt-dlp`, with its first occurrence at `i`: the text before `i` is kept, `yt-dlp --proxy "http://<proxy>"` follows, then the rest of the command after that `yt-dlp` unchanged; the command grows by the option and a space; a command without `yt-dlp` runs unchanged |
| Executor.Replenish | index.js:143-146 | the search before the loop, and again after a demotion (index.js:174-176): a search happens, and is counted, iff fewer than two working proxies are left; otherwise the pool is unchanged; a search leaves the pool `FindWorking` gives |
| Executor.Attempt | index.js:150-177 | one pass makes one well-formed run: a proxied run with a 60 s timeout, or a direct run with a 120 s timeout; success ends the call with the answer, a failed direct run leaves the loop, and a failed proxied run retries |
| Executor.AttemptProxy | index.js:150-166 | a pass runs through the proxy `getProxyArg` hands out, or directly when it hands out none |
| Executor.AttemptProxyIsAddress | index.js:150-166 | on a pool that keeps its invariant, every proxy a pass uses is an `ipv4:port` address and holds no quote, `$`, backtick or backslash |
| Executor.FailedProxyDemoted | index.js:169-176 | after a failed proxied run, the proxy just used (a working one) is demoted; a search follows iff fewer than two remain; otherwise the proxy is gone and the cursor stays where the rotation left it |
| Executor.AttemptsNext | index.js:149-178 | one pass of the loop: a success returns, a failed direct run goes to the fallback, a failed proxied run continues with the next attempt |
| Executor.Fallback | index.js:180-185 | the direct run after the loop, whose failure reports the recorded `lastError` ahead of its own error; no contract of its own; `Executor.ExecuteError` and `Executor.AttemptsShape` state its run and the error it reports |
| Executor.Attempts | index.js:148-185 | the loop from a given attempt on, then the fallback; no contract of its own; `Executor.AttemptsNext` and `Executor.AttemptsShape` state its passes and runs |
| Executor.AttemptsShape | index.js:149-185 | the loop keeps the earlier runs and adds at most the remaining attempts plus one; every run but the last failed; only the last two can be direct; a failure ends with the direct fallback |
| Executor.Execute | index.js:137-186 | the whole call as a function; no contract of its own; `Executor.ExecuteRuns`, `Executor.ExecuteError`, `Executor.ExecuteKeepsInv` and `Executor.ExecuteWithProxy` state its runs, its error, the invariant it keeps and that the procedure computes it |
| Executor.ExecuteRuns | index.js:137-186 | one run with proxies off, at most four with them on; every run well formed; every run but the last failed (the first success returns at once); only the last two can be direct; the result is the last run's answer when that succeeded |
| Executor.DisabledRunsOnce | index.js:138-141 | with proxies off, exactly one direct run with a 120 s timeout; its answer is the result and the pool is untouched |
| Executor.FirstRunAfterReplenish | index.js:143-150 | with proxies on, the pool is searched first when it has fewer than two working proxies, and the first run goes through the proxy the resulting pool hands out |
| Executor.DirectRunTwice | index.js:152-185 | on a fresh, enabled pool whose sources all fail, with a failing command, the call runs the direct command twice and reports the first failure |
| Executor.SearchWithoutSources | proxy-manager.js:106-134 | a search on an enabled pool without candidates, while every source fails and the shuffle adds nothing, leaves the working list empty |
| Executor.StrandedCursorRunsDirect | index.js:150-176 | with working proxies `[a, b, c]` and the cursor on `b`, a failed run through `b` leaves `[a, c]` with the cursor past the end and no search, so the next run is direct although two working proxies remain |
| Executor.ExecuteError | index.js:148-185 | a failed call with proxies on reports the error of the run before the final direct run, never the final run's own error |
| Executor.ExecuteKeepsInv | index.js:137-186 | a call keeps the pool invariant |
| Executor.TryOnce | index.js:150-177 | one pass on the pool object: its step and the pool after it are those of `Attempt` |
| Executor.RetryLoop | index.js:148-185 | the loop and the fallback on the pool object produce the result, runs and pool of the attempts function |
| Executor.ExecuteWithProxy | index.js:137-186 | the procedure's result, runs and final pool are those of `Execute` on the old pool |

## Left out

- Network and process I/O are inputs, not modelled code:
  - `httpGet` (proxy-manager.js:44-58) becomes `fetch`, giving each source's body or failure;
  - `testProxy` and `testProxyWithCurl` (proxy-manager.js:60-104) become `works`, a verdict per proxy;
  - `execSync` (index.js) becomes `exec`, keyed by the run number, the command line and the timeout;
  - the process start and stream collection of `runYtDlp` (src/lib/ytdlp.ts:61-93) become a `SpawnOutcome`.
- `Math.random` and `Date.now` are inputs:
  - the random-comparator sort (proxy-manager.js:119) is a `shuffle` input; the invariant lemmas require it to be a permutation;
  - `Date.now` is `now`.
- One world per search:
  - Each search of a call sees its own `Env`, the same throughout that search. So the clock does not move between the download and the probes.
- File system work in `createCookieFile` is not part of this model:
  - `mkdtemp`, `writeFile` and `rm` (src/lib/ytdlp.ts:23, 52-57) are left out;
  - only the text written is modelled.
- `JSON.parse` of `yt-dlp`'s output (src/lib/ytdlp.ts:114):
  - it is a library call;
  - `getVideoInfo` returns the raw stdout.
- Concurrency and the singleton:
  - `module.exports = new ProxyManager()` (proxy-manager.js:162) is shared by concurrent requests;
  - the model has one sequential caller, and `await` points are plain sequencing.
- Log output (`console.log`) is left out.
- The `url` argument of `executeWithProxy` is only logged, so it is dropped.
- Error objects are reduced to their message strings.
- Characters:
  - `toLowerCase` is modelled for ASCII letters only;
  - characters are Dafny `char`s, not UTF-16 code units;
  - `String.prototype.replace` with a string pattern is modelled without the `$`-substitution patterns of the replacement string. Every proxy in the pool matches the address pattern (`ProxyPool.Inv`) and so never contains `$` (`Executor.AttemptProxyIsAddress`).
- Route glue is left out:
  - express and fastify handlers, the OpenAPI document, src/routes/stream.ts, src/routes/download.ts, src/routes/docs.ts, src/app.ts and src/server.ts;
  - src/routes/formats.ts, which repeats the format summary;
  - src/config.ts;
  - the floating-point duration fallback of index.js.
- Method structure:
  - `Executor.TryOnce` and `Executor.RetryLoop` split the body of `executeWithProxy` into a pass and the loop;
  - `ProxyPool.ProxyManager.ProbeInto` does the same for the probing loop of `findWorkingProxies`.
  - The order of effects on the pool is kept.
- Executor.ExecuteRuns: the bound counts command runs only. The probes and downloads of a search are inputs and are not counted.
- Info.Summarize: formats are records of optional fields, not arbitrary JSON. A numeric width or height is an integer.
