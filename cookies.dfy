/** The cookie part of src/lib/ytdlp.ts: the configured `Cookie` header is
    stripped of line breaks, split into name/value pairs, and written out as a
    Netscape cookie file for yt-dlp's `--cookies` option. */
module Cookies {
  import opened Common
  import opened Strings

  const CookieDomain := ".youtube.com"
  const CookieFileHeader := "# Netscape HTTP Cookie File"

  datatype CookiePair = CookiePair(name: string, value: string)

  // ---------------------------------------------------------------------------
  // sanitizeCookieValue

  /** `sanitizeCookieValue`: `value.replace(/[\r\n]/g, "")`. */
  function Sanitize(s: string): (r: string)
    ensures '\r' !in r && '\n' !in r
    ensures |r| <= |s|
  {
    if |s| == 0 then ""
    else (if s[0] == '\r' || s[0] == '\n' then "" else [s[0]]) + Sanitize(s[1..])
  }

  /** Sanitising works character by character: it distributes over
      concatenation ... */
  lemma {:induction false} SanitizeConcat(a: string, b: string)
    ensures Sanitize(a + b) == Sanitize(a) + Sanitize(b)
    decreases |a|
  {
    if |a| > 0 {
      assert (a + b)[1..] == a[1..] + b;
      SanitizeConcat(a[1..], b);
    } else {
      assert a + b == b;
    }
  }

  /** ... and on one character it drops exactly carriage return and line
      feed, so every other character is kept, in order. */
  lemma SanitizeChar(c: char)
    ensures Sanitize([c]) == if c == '\r' || c == '\n' then "" else [c]
  {
    assert [c][1..] == "";
  }

  /** A string without line breaks is left as it is. */
  lemma {:induction false} SanitizeUnchanged(s: string)
    requires '\r' !in s && '\n' !in s
    ensures Sanitize(s) == s
  {
    if |s| > 0 {
      SanitizeUnchanged(s[1..]);
      assert s == [s[0]] + s[1..];
    }
  }

  // ---------------------------------------------------------------------------
  // the pairs of createCookieFile

  /** What every parsed pair satisfies: a non-empty name without `=`, both
      sides trimmed, and no `;` or line break on either side. */
  predicate WellFormed(p: CookiePair) {
    && p.name != "" && IsTrimmed(p.name) && IsTrimmed(p.value)
    && '=' !in p.name && ';' !in p.name && ';' !in p.value
    && '\r' !in p.name && '\n' !in p.name && '\r' !in p.value && '\n' !in p.value
  }

  /** The `map` callback on one trimmed, non-empty entry: no `=` gives
      nothing; otherwise the name is the trimmed text before the first `=`, the
      value the trimmed text after it, and an empty name gives nothing. */
  function ParseEntry(entry: string): (r: Option<CookiePair>)
    ensures r.Some? ==> r.value.name != "" && '=' !in r.value.name
    ensures r.Some? ==> IsTrimmed(r.value.name) && IsTrimmed(r.value.value)
    ensures '=' !in entry ==> r.None?
  {
    var i := FirstIndex(entry, '=');
    if i == |entry| then None
    else
      var name := Trim(entry[..i]);
      var value := Trim(entry[i + 1..]);
      if name == "" then None else Some(CookiePair(name, value))
  }

  /** Every entry with an `=` is `a + "=" + b` with `a` free of `=`: the
      name is `a` trimmed and the value `b` trimmed, and a name that trims
      to nothing gives nothing. */
  lemma ParseEntrySplit(a: string, b: string)
    requires '=' !in a
    ensures ParseEntry(a + "=" + b) == if Trim(a) == "" then None else Some(CookiePair(Trim(a), Trim(b)))
  {
    assert a + "=" + b == a + ['='] + b;
    FirstIndexConcat(a, '=', b);
    ConcatSlices(a, '=', b);
  }

  /** Name and value hold no character the entry does not hold. */
  lemma ParseEntryAvoids(entry: string, c: char)
    requires c !in entry
    ensures ParseEntry(entry).Some? ==> c !in ParseEntry(entry).value.name && c !in ParseEntry(entry).value.value
  {
    var i := FirstIndex(entry, '=');
    if i < |entry| {
      assert c !in entry[..i] && c !in entry[i + 1..];
      TrimAvoids(entry[..i], c);
      TrimAvoids(entry[i + 1..], c);
    }
  }

  /** One segment of the split header: trimmed, dropped when empty, else
      handed to `ParseEntry`. */
  function SegmentPair(segment: string): (r: Option<CookiePair>) {
    var entry := Trim(segment);
    if entry == "" then None else ParseEntry(entry)
  }

  /** `split(";").map(trim).filter(Boolean).map(...).filter(Boolean)`, one
      segment at a time, keeping the order of the segments. */
  function ParseSegments(segments: seq<string>): (r: seq<CookiePair>)
    ensures |r| <= |segments|
  {
    FilterMap(SegmentPair, segments)
  }

  /** The pairs `createCookieFile` derives from the configured header. */
  function CookiePairs(header: string): (pairs: seq<CookiePair>)
    ensures forall k :: 0 <= k < |pairs| ==> WellFormed(pairs[k])
  {
    var segments := Split(Sanitize(header), ';');
    SplitAvoids(Sanitize(header), ';', '\r');
    SplitAvoids(Sanitize(header), ';', '\n');
    SegmentsWellFormed(segments);
    ParseSegments(segments)
  }

  /** Name and value of a segment's pair hold no character the segment does
      not hold. */
  lemma SegmentPairAvoids(segment: string, c: char)
    requires c !in segment
    ensures SegmentPair(segment).Some? ==>
              c !in SegmentPair(segment).value.name && c !in SegmentPair(segment).value.value
  {
    TrimAvoids(segment, c);
    ParseEntryAvoids(Trim(segment), c);
  }

  /** A segment free of `;` and line breaks yields a well-formed pair. */
  lemma SegmentPairWellFormed(segment: string)
    requires ';' !in segment && '\r' !in segment && '\n' !in segment
    ensures SegmentPair(segment).Some? ==> WellFormed(SegmentPair(segment).value)
  {
    SegmentPairAvoids(segment, ';');
    SegmentPairAvoids(segment, '\r');
    SegmentPairAvoids(segment, '\n');
  }

  /** Segments free of `;` and line breaks parse into well-formed pairs. */
  lemma {:induction false} SegmentsWellFormed(segments: seq<string>)
    requires forall k :: 0 <= k < |segments| ==>
               ';' !in segments[k] && '\r' !in segments[k] && '\n' !in segments[k]
    ensures forall k :: 0 <= k < |ParseSegments(segments)| ==> WellFormed(ParseSegments(segments)[k])
  {
    if |segments| > 0 {
      var rest := segments[1..];
      assert forall k :: 0 <= k < |rest| ==> ';' !in rest[k] && '\r' !in rest[k] && '\n' !in rest[k];
      SegmentsWellFormed(rest);
      SegmentPairWellFormed(segments[0]);
      ParseHead(segments);
      ConcatWellFormed(Present(SegmentPair(segments[0])), ParseSegments(rest));
    }
  }

  /** The first segment contributes its pair, if any, in front of the
      pairs of the rest. */
  lemma ParseHead(segments: seq<string>)
    requires |segments| >= 1
    ensures ParseSegments(segments) == Present(SegmentPair(segments[0])) + ParseSegments(segments[1..])
  {
    FilterMapCons(SegmentPair, segments[0], segments[1..]);
    assert [segments[0]] + segments[1..] == segments;
  }

  lemma ConcatWellFormed(a: seq<CookiePair>, b: seq<CookiePair>)
    requires forall k :: 0 <= k < |a| ==> WellFormed(a[k])
    requires forall k :: 0 <= k < |b| ==> WellFormed(b[k])
    ensures forall k :: 0 <= k < |a + b| ==> WellFormed((a + b)[k])
  {
  }

  // ---------------------------------------------------------------------------
  // the inverse: a header rendered from pairs

  function Entry(p: CookiePair): string {
    p.name + "=" + p.value
  }

  /** A `Cookie` header as a browser sends it: entries joined by `"; "`. */
  function RenderHeader(pairs: seq<CookiePair>): string {
    if |pairs| == 0 then ""
    else if |pairs| == 1 then Entry(pairs[0])
    else Entry(pairs[0]) + "; " + RenderHeader(pairs[1..])
  }

  /** A rendered header holds no character that neither its entries nor the
      separator hold. */
  lemma {:induction false} RenderAvoids(pairs: seq<CookiePair>, c: char)
    requires c != ';' && c != ' '
    requires forall k :: 0 <= k < |pairs| ==> c !in Entry(pairs[k])
    ensures c !in RenderHeader(pairs)
  {
    if |pairs| > 1 {
      assert forall k :: 0 <= k < |pairs[1..]| ==> c !in Entry(pairs[1..][k]);
      RenderAvoids(pairs[1..], c);
    }
  }

  /** One well-formed pair renders to a trimmed entry that parses back to it. */
  lemma EntryParses(p: CookiePair)
    requires WellFormed(p)
    ensures IsTrimmed(Entry(p)) && ';' !in Entry(p)
    ensures '\r' !in Entry(p) && '\n' !in Entry(p)
    ensures ParseEntry(Entry(p)) == Some(p)
  {
    var e := Entry(p);
    EntrySplitsAtEquals(p);
    EntryTrimmed(p);
    EntryAvoids(p, ';');
    EntryAvoids(p, '\r');
    EntryAvoids(p, '\n');
    TrimTrimmed(p.name);
    TrimTrimmed(p.value);
    ParseEntrySplit(p.name, p.value);
  }

  /** The first `=` of an entry is the one after the name. */
  lemma EntrySplitsAtEquals(p: CookiePair)
    requires '=' !in p.name
    ensures FirstIndex(Entry(p), '=') == |p.name| < |Entry(p)|
    ensures Entry(p)[..|p.name|] == p.name && Entry(p)[|p.name| + 1..] == p.value
  {
    assert Entry(p) == p.name + ['='] + p.value;
    FirstIndexConcat(p.name, '=', p.value);
    ConcatSlices(p.name, '=', p.value);
  }

  lemma ConcatSlices(a: string, x: char, b: string)
    ensures (a + [x] + b)[..|a|] == a && (a + [x] + b)[|a| + 1..] == b
  {
  }

  /** An entry starts with its name and ends with its value or `=`. */
  lemma EntryTrimmed(p: CookiePair)
    requires p.name != "" && IsTrimmed(p.name) && IsTrimmed(p.value)
    ensures IsTrimmed(Entry(p))
  {
    var e := Entry(p);
    assert e[0] == p.name[0];
    assert e[|e| - 1] == if |p.value| == 0 then '=' else p.value[|p.value| - 1];
  }

  lemma EntryAvoids(p: CookiePair, c: char)
    requires c != '=' && c !in p.name && c !in p.value
    ensures c !in Entry(p)
  {
    assert Entry(p) == p.name + ['='] + p.value;
  }

  lemma RenderSingle(pairs: seq<CookiePair>)
    requires |pairs| == 1
    ensures RenderHeader(pairs) == Entry(pairs[0])
  {
  }

  lemma RenderCons(pairs: seq<CookiePair>)
    requires |pairs| >= 2
    ensures RenderHeader(pairs) == Entry(pairs[0]) + [';'] + (" " + RenderHeader(pairs[1..]))
  {
    SeparatorParts(Entry(pairs[0]), RenderHeader(pairs[1..]));
  }

  /** The separator `"; "` is a `;` followed by a space. */
  lemma SeparatorParts(a: string, x: string)
    ensures a + "; " + x == a + [';'] + (" " + x)
  {
  }

  /** What may precede an entry in a rendered header: nothing at the start,
      one space after each `;`. */
  predicate Lead(w: string) {
    w == "" || w == " "
  }

  /** A segment of leading white space and one entry is read as its pair. */
  lemma SegmentOf(w: string, p: CookiePair)
    requires Lead(w) && WellFormed(p)
    ensures ';' !in w + Entry(p)
    ensures SegmentPair(w + Entry(p)) == Some(p)
  {
    EntryParses(p);
    LeadSpaces(w);
    TrimAfterSpaces(w, Entry(p));
    AvoidsConcat(w, Entry(p), ';');
    SegmentPairOf(w + Entry(p), Entry(p), p);
  }

  lemma LeadSpaces(w: string)
    requires Lead(w)
    ensures forall k :: 0 <= k < |w| ==> IsSpace(w[k])
    ensures ';' !in w
  {
    assert w == " " ==> w[0] == ' ';
  }

  /** A segment whose trimmed text is an entry that parses yields that
      entry's pair. */
  lemma SegmentPairOf(x: string, e: string, p: CookiePair)
    requires Trim(x) == e && e != "" && ParseEntry(e) == Some(p)
    ensures SegmentPair(x) == Some(p)
  {
  }

  /** A first segment that yields a pair puts it in front of the rest. */
  lemma ParseFirst(x: string, rest: seq<string>, p: CookiePair)
    requires SegmentPair(x) == Some(p)
    ensures ParseSegments([x] + rest) == [p] + ParseSegments(rest)
  {
    FilterMapCons(SegmentPair, x, rest);
  }

  lemma HeadTail<T>(s: seq<T>)
    requires |s| >= 1
    ensures [s[0]] + s[1..] == s
  {
  }

  /** Parsing the segments of a rendered header, after the leading white
      space, gives back the pairs. */
  lemma {:induction false} ParseRendered(w: string, pairs: seq<CookiePair>)
    requires Lead(w)
    requires forall k :: 0 <= k < |pairs| ==> WellFormed(pairs[k])
    ensures ParseSegments(Split(w + RenderHeader(pairs), ';')) == pairs
    decreases |pairs|
  {
    if |pairs| == 0 {
      ParseRenderedNil(w);
    } else if |pairs| == 1 {
      ParseRenderedOne(w, pairs);
    } else {
      assert forall k :: 0 <= k < |pairs[1..]| ==> WellFormed(pairs[1..][k]);
      ParseRendered(" ", pairs[1..]);
      ParseRenderedCons(w, pairs);
    }
  }

  /** No pairs: the white space alone yields none. */
  lemma ParseRenderedNil(w: string)
    requires Lead(w)
    ensures ParseSegments(Split(w + RenderHeader([]), ';')) == []
  {
    assert w + RenderHeader([]) == w;
    SplitNone(w, ';');
    assert w == " " ==> w[0] == ' ';
    assert Trim(w) == "" by {
      TrimAllSpaces(w);
    }
    assert Split(w, ';')[1..] == [];
  }

  /** One pair: a single segment, which yields it. */
  lemma ParseRenderedOne(w: string, pairs: seq<CookiePair>)
    requires Lead(w)
    requires |pairs| == 1 && WellFormed(pairs[0])
    ensures ParseSegments(Split(w + RenderHeader(pairs), ';')) == pairs
  {
    SingleShape(w, pairs);
    SegmentOf(w, pairs[0]);
    ParseSingle(w + Entry(pairs[0]), pairs);
  }

  lemma SingleShape(w: string, pairs: seq<CookiePair>)
    requires |pairs| == 1
    ensures w + RenderHeader(pairs) == w + Entry(pairs[0])
  {
    RenderSingle(pairs);
  }

  /** A text without `;` whose only segment yields the one pair yields just
      that pair. */
  lemma ParseSingle(x: string, pairs: seq<CookiePair>)
    requires |pairs| == 1
    requires ';' !in x && SegmentPair(x) == Some(pairs[0])
    ensures ParseSegments(Split(x, ';')) == pairs
  {
    SplitNone(x, ';');
    ParseHead([x]);
    assert [x][1..] == [];
    assert pairs == [pairs[0]];
  }

  lemma ConcatAssoc(a: string, b: string, c: string, d: string)
    ensures a + (b + c + d) == (a + b) + c + d
  {
  }

  /** The step case of `ParseRendered`: the first pair is read from the first
      segment, and the rest from the segments after the first `;`. */
  lemma ParseRenderedCons(w: string, pairs: seq<CookiePair>)
    requires Lead(w)
    requires |pairs| >= 2 && WellFormed(pairs[0])
    requires ParseSegments(Split(" " + RenderHeader(pairs[1..]), ';')) == pairs[1..]
    ensures ParseSegments(Split(w + RenderHeader(pairs), ';')) == pairs
  {
    ConsShape(w, pairs);
    SegmentOf(w, pairs[0]);
    ParseAfterSegment(w + RenderHeader(pairs), w + Entry(pairs[0]), " " + RenderHeader(pairs[1..]), pairs);
  }

  /** After the leading white space, a header of two or more pairs is the
      first entry, a `;`, and the rest of the header behind a space. */
  lemma ConsShape(w: string, pairs: seq<CookiePair>)
    requires |pairs| >= 2
    ensures w + RenderHeader(pairs) == (w + Entry(pairs[0])) + [';'] + (" " + RenderHeader(pairs[1..]))
  {
    RenderCons(pairs);
    ConcatAssoc(w, Entry(pairs[0]), [';'], " " + RenderHeader(pairs[1..]));
  }

  /** A text made of a segment that yields the first pair, a `;`, and a text
      that yields the remaining pairs, yields all the pairs. */
  lemma ParseAfterSegment(h: string, x: string, b: string, pairs: seq<CookiePair>)
    requires |pairs| >= 1
    requires h == x + [';'] + b
    requires ';' !in x && SegmentPair(x) == Some(pairs[0])
    requires ParseSegments(Split(b, ';')) == pairs[1..]
    ensures ParseSegments(Split(h, ';')) == pairs
  {
    SplitConcat(x, ';', b);
    ParseFirst(x, Split(b, ';'), pairs[0]);
    HeadTail(pairs);
  }

  /** Round trip: the pairs read from a header rendered from well-formed
      pairs are those pairs, in order. */
  lemma HeaderRoundTrip(pairs: seq<CookiePair>)
    requires forall k :: 0 <= k < |pairs| ==> WellFormed(pairs[k])
    ensures CookiePairs(RenderHeader(pairs)) == pairs
  {
    var h := RenderHeader(pairs);
    RenderNoBreaks(pairs);
    SanitizeUnchanged(h);
    CookiePairsOf(h);
    ParseRendered("", pairs);
    EmptyLead(h);
  }

  lemma EmptyLead(h: string)
    ensures "" + h == h
  {
  }

  /** `CookiePairs` parses the segments of the sanitised header. */
  lemma CookiePairsOf(header: string)
    ensures CookiePairs(header) == ParseSegments(Split(Sanitize(header), ';'))
  {
  }

  /** A header rendered from well-formed pairs has no line break. */
  lemma RenderNoBreaks(pairs: seq<CookiePair>)
    requires forall k :: 0 <= k < |pairs| ==> WellFormed(pairs[k])
    ensures '\r' !in RenderHeader(pairs) && '\n' !in RenderHeader(pairs)
  {
    forall k | 0 <= k < |pairs| ensures '\r' !in Entry(pairs[k]) && '\n' !in Entry(pairs[k]) {
      EntryParses(pairs[k]);
    }
    RenderAvoids(pairs, '\r');
    RenderAvoids(pairs, '\n');
  }

  // ---------------------------------------------------------------------------
  // the Netscape cookie file

  /** One cookie line: domain, subdomains flag, path, secure flag, expiry,
      name and value, separated by tabs. */
  function CookieLine(p: CookiePair): string {
    CookieDomain + "\t" + "TRUE" + "\t" + "/" + "\t" + "FALSE" + "\t" + "0" + "\t" + p.name + "\t" + p.value
  }

  function CookieLines(pairs: seq<CookiePair>): (r: seq<string>)
    ensures |r| == |pairs|
  {
    seq(|pairs|, k requires 0 <= k < |pairs| => CookieLine(pairs[k]))
  }

  /** The text written to the cookie file: the header line, then one line per
      pair, joined by `\n` without a trailing newline. */
  function CookieFileText(pairs: seq<CookiePair>): string {
    Join([CookieFileHeader] + CookieLines(pairs), "\n")
  }

  /** The text `createCookieFile` writes for a configured header. */
  function CookieFileFor(header: string): string {
    CookieFileText(CookiePairs(header))
  }

  /** The fields of a cookie line. */
  function CookieFields(p: CookiePair): seq<string> {
    [CookieDomain, "TRUE", "/", "FALSE", "0", p.name, p.value]
  }

  /** Concatenation regrouped from the right-nested shape `Join` builds. */
  lemma Nest7(a: string, b: string, c: string, d: string, e: string, f: string, g: string, t: string)
    ensures a + t + (b + t + (c + t + (d + t + (e + t + (f + t + g)))))
            == a + t + b + t + c + t + d + t + e + t + f + t + g
  {
  }

  /** A cookie line is its seven fields joined by tabs. */
  lemma CookieLineIsFields(p: CookiePair)
    ensures CookieLine(p) == Join(CookieFields(p), "\t")
  {
    var t := "\t";
    var j5 := Join([p.name, p.value], t);
    assert j5 == p.name + t + p.value by {
      JoinCons(p.name, [p.value], t);
    }
    var j4 := Join(["0", p.name, p.value], t);
    assert j4 == "0" + t + j5 by {
      JoinCons("0", [p.name, p.value], t);
    }
    var j3 := Join(["FALSE", "0", p.name, p.value], t);
    assert j3 == "FALSE" + t + j4 by {
      JoinCons("FALSE", ["0", p.name, p.value], t);
    }
    var j2 := Join(["/", "FALSE", "0", p.name, p.value], t);
    assert j2 == "/" + t + j3 by {
      JoinCons("/", ["FALSE", "0", p.name, p.value], t);
    }
    var j1 := Join(["TRUE", "/", "FALSE", "0", p.name, p.value], t);
    assert j1 == "TRUE" + t + j2 by {
      JoinCons("TRUE", ["/", "FALSE", "0", p.name, p.value], t);
    }
    assert Join(CookieFields(p), t) == CookieDomain + t + j1 by {
      JoinCons(CookieDomain, ["TRUE", "/", "FALSE", "0", p.name, p.value], t);
    }
    Nest7(CookieDomain, "TRUE", "/", "FALSE", "0", p.name, p.value, t);
  }

  /** A reader splits a cookie line back into its seven fields. */
  lemma LineFields(p: CookiePair)
    requires TabFree(p)
    ensures Split(CookieLine(p), '\t') == CookieFields(p)
  {
    CookieLineIsFields(p);
    var f := CookieFields(p);
    assert '\t' !in CookieDomain && '\t' !in "TRUE" && '\t' !in "/" && '\t' !in "FALSE" && '\t' !in "0";
    assert forall k :: 0 <= k < |f| ==> '\t' !in f[k];
    SplitJoin(f, '\t');
  }

  /** How a Netscape cookie-file reader takes the file apart: the header
      line, then per line the seven tab-separated fields, of which the sixth
      and seventh are name and value. */
  function ReadCookieFile(text: string): Option<seq<CookiePair>> {
    var lines := Split(text, '\n');
    if lines[0] != CookieFileHeader then None else ReadCookieLines(lines[1..])
  }

  function ReadCookieLines(lines: seq<string>): Option<seq<CookiePair>> {
    if |lines| == 0 then Some([])
    else
      var fields := Split(lines[0], '\t');
      if |fields| != 7 then None
      else match ReadCookieLines(lines[1..]) {
        case None => None
        case Some(rest) => Some([CookiePair(fields[5], fields[6])] + rest)
      }
  }

  predicate TabFree(p: CookiePair) {
    '\t' !in p.name && '\t' !in p.value
  }

  lemma {:induction false} ReadLinesRoundTrip(pairs: seq<CookiePair>)
    requires forall k :: 0 <= k < |pairs| ==> TabFree(pairs[k])
    ensures ReadCookieLines(CookieLines(pairs)) == Some(pairs)
  {
    if |pairs| > 0 {
      var rest := pairs[1..];
      assert forall k :: 0 <= k < |rest| ==> TabFree(rest[k]);
      ReadLinesRoundTrip(rest);
      LinesCons(pairs);
      LineFields(pairs[0]);
      ReadLinesCons(CookieLine(pairs[0]), CookieLines(rest), pairs[0], rest);
      HeadTail(pairs);
    }
  }

  lemma LinesCons(pairs: seq<CookiePair>)
    requires |pairs| >= 1
    ensures CookieLines(pairs) == [CookieLine(pairs[0])] + CookieLines(pairs[1..])
  {
  }

  /** A line with the fields of `p` in front of lines that read as `ps`
      reads as `p` followed by `ps`. */
  lemma ReadLinesCons(line: string, rest: seq<string>, p: CookiePair, ps: seq<CookiePair>)
    requires Split(line, '\t') == CookieFields(p)
    requires ReadCookieLines(rest) == Some(ps)
    ensures ReadCookieLines([line] + rest) == Some([p] + ps)
  {
    assert ([line] + rest)[0] == line && ([line] + rest)[1..] == rest;
  }

  /** The file has one line more than there are pairs, the first line is the
      header, and a reader gets the pairs back, in order, when no name or value
      holds a tab. */
  lemma {:induction false} CookieFileRoundTrip(pairs: seq<CookiePair>)
    requires forall k :: 0 <= k < |pairs| ==> WellFormed(pairs[k]) && TabFree(pairs[k])
    ensures Split(CookieFileText(pairs), '\n') == [CookieFileHeader] + CookieLines(pairs)
    ensures |Split(CookieFileText(pairs), '\n')| == |pairs| + 1
    ensures ReadCookieFile(CookieFileText(pairs)) == Some(pairs)
  {
    FileLines(pairs);
    var lines := [CookieFileHeader] + CookieLines(pairs);
    assert lines[0] == CookieFileHeader && lines[1..] == CookieLines(pairs);
    ReadLinesRoundTrip(pairs);
  }

  lemma LineNoBreak(p: CookiePair)
    requires WellFormed(p)
    ensures '\n' !in CookieLine(p)
  {
    CookieLineIsFields(p);
    var f := CookieFields(p);
    assert forall k :: 0 <= k < |f| ==> '\n' !in f[k];
    JoinAvoids(f, "\t", '\n');
  }

  /** The lines of the file are the header and one line per pair. */
  lemma FileLines(pairs: seq<CookiePair>)
    requires forall k :: 0 <= k < |pairs| ==> WellFormed(pairs[k])
    ensures Split(CookieFileText(pairs), '\n') == [CookieFileHeader] + CookieLines(pairs)
  {
    var lines := [CookieFileHeader] + CookieLines(pairs);
    forall k | 0 <= k < |lines| ensures '\n' !in lines[k] {
      if k > 0 {
        assert lines[k] == CookieLine(pairs[k - 1]);
        LineNoBreak(pairs[k - 1]);
      }
    }
    SplitJoin(lines, '\n');
  }

  /** For a configured header without tabs, the written file reads back as
      exactly the pairs parsed from the header. */
  lemma CookieFileForReadsBack(header: string)
    requires '\t' !in header
    ensures ReadCookieFile(CookieFileFor(header)) == Some(CookiePairs(header))
  {
    var pairs := CookiePairs(header);
    assert '\t' !in Sanitize(header) by {
      SanitizeNoNewChars(header, '\t');
    }
    SplitAvoids(Sanitize(header), ';', '\t');
    ParseSegmentsAvoids(Split(Sanitize(header), ';'), '\t');
    CookieFileRoundTrip(pairs);
  }

  /** Sanitising adds no characters. */
  lemma {:induction false} SanitizeNoNewChars(s: string, c: char)
    requires c !in s
    ensures c !in Sanitize(s)
  {
    if |s| > 0 {
      SanitizeNoNewChars(s[1..], c);
    }
  }

  /** Parsed names and values hold no character the segments do not hold. */
  lemma {:induction false} ParseSegmentsAvoids(segments: seq<string>, c: char)
    requires forall k :: 0 <= k < |segments| ==> c !in segments[k]
    ensures forall k :: 0 <= k < |ParseSegments(segments)| ==>
              c !in ParseSegments(segments)[k].name && c !in ParseSegments(segments)[k].value
  {
    if |segments| > 0 {
      var rest := segments[1..];
      assert forall k :: 0 <= k < |rest| ==> c !in rest[k];
      ParseSegmentsAvoids(rest, c);
      SegmentPairAvoids(segments[0], c);
      ParseHead(segments);
      ConcatAvoids(Present(SegmentPair(segments[0])), ParseSegments(rest), c);
    }
  }

  lemma ConcatAvoids(a: seq<CookiePair>, b: seq<CookiePair>, c: char)
    requires forall k :: 0 <= k < |a| ==> c !in a[k].name && c !in a[k].value
    requires forall k :: 0 <= k < |b| ==> c !in b[k].name && c !in b[k].value
    ensures forall k :: 0 <= k < |a + b| ==> c !in (a + b)[k].name && c !in (a + b)[k].value
  {
  }
}
